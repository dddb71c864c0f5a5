# TableView core, modelled in Dafny

TableView is a desktop viewer that opens a CSV, TSV, Avro or Parquet file
with polars and shows it in an egui grid. This project models its two
pieces of logic:

- **Extension dispatch** (`reader::read`): the path's extension is
  lower-cased and matched against `csv`, `tsv`, `avro` and `parquet`. `csv`
  and `tsv` both go to the CSV reader and differ only in the separator byte.
  Every other extension is a `NoData("unsupported file extension")` error.
  A path with no extension makes `read` panic.
- **The session** (`App` and the non-drawing part of `App::update`): the
  fields `data`, `source`, `input` and `error`; the Open button; the load
  attempt made by each frame; and the choice between drawing the grid and
  showing the error text. Next to it sit the display policies of
  `table_ui`: the row cap, the per-column alignment and the header label.

Files:

- `wrappers.dfy`: `Option` and `Result`.
- `tables.dfy`: the parts of a `DataFrame` the viewer looks at. That is the
  height plus, for each column, a name and a data type. A data type is seen
  only through its display text and its `is_numeric` flag.
- `paths.dfy`: `Path::file_name` and `Path::extension` for Unix-style paths.
- `reader.dfy`: `src/reader.rs`. The decoders and `File::open` are the fields
  of a `Decoders` record of functions, so every property holds for every
  decoder behaviour.
- `grid.dfy`: the policies of `table_ui` in `src/grid.rs`.
- `session.dfy`: `App`, `Default::default` and the state logic of `update`.
  One `Update` is one frame. It takes what the user did in the data-source
  panel, the foreign calls as they answer during that frame, and polars'
  error display (`show`).

## Behaviour of the code worth knowing

- Open does not clear `error` (src/grid.rs:86-89). A table loaded after a
  failure is held, but the old error text is still what the panel shows
  (`Session.StaleErrorHidesLoad`). A table and an error can be held at the
  same time.
- A failed load leaves `data` empty, so every later frame calls `read` again
  until a load succeeds (src/grid.rs:100-108, `Session.RetriedWhileFailing`).
- A path with no extension panics at the `expect` in src/reader.rs:6-8.
  `Reader.Read` therefore requires an extension. `Session.Update` requires
  one only when the frame will read.
- The unsupported-extension error is the fixed text "unsupported file
  extension" (src/reader.rs:15); it does not include the extension.
- Opening an empty path blanks the panel but keeps the error in the state
  (`Session.EmptyOpenKeepsError`).

## Model

| member | source | states |
|---|---|---|
| Paths.ExtensionShape | src/reader.rs:6-8 | An extension is the part of the file name after a '.' that is not the name's first character; it contains no '.' or '/'. |
| Paths.ExtensionOfPath | src/reader.rs:6-8 | `dir/stem.ext` has extension `ext`, whatever the directory is. |
| Paths.ExtensionOfFileName | src/reader.rs:6-8 | A bare file name `stem.ext` has extension `ext`. |
| Paths.HiddenFileHasNoExtension | src/reader.rs:6-8 | A name like `.bashrc`, whose only '.' comes first, has no extension, so `read` would panic on it. |
| Reader.ToLowerMatches | src/reader.rs:10 | Comparing the lower-cased extension with a lower-case word is the same as comparing the two up to letter case. |
| Reader.Dispatch | src/reader.rs:10-25 | Chooses the CSV reader with ',' exactly when the extension is `csv` in any case, and with '\t' exactly for `tsv`. Chooses Avro exactly for `avro` and Parquet exactly for `parquet`. Chooses nothing for any other extension. The CSV settings are always: header present, schema inferred from 3 rows, date parsing on. Parquet gets statistics and rechunking. |
| Reader.DispatchIgnoresCase | src/reader.rs:10 | Extensions that spell the same word up to letter case choose the same decoder with the same settings. |
| Reader.DispatchArmsDisjoint | src/reader.rs:10-16 | No extension matches two of the four words, so a supported extension selects exactly one decoder. |
| Reader.Read | src/reader.rs:5-39 | An unsupported extension gives `NoData("unsupported file extension")`. Otherwise the result is the chosen decoder's answer, unchanged. For Avro and Parquet, a failed `File::open` becomes `PolarsError::Io`. |
| Reader.ReadConsultsOnlyChosenDecoder | src/reader.rs:10-16 | Two decoder sets that agree on the calls the chosen format makes give the same result. The other decoders are never consulted. |
| Reader.UnsupportedReadsNothing | src/reader.rs:15 | For an unsupported extension the result is the same error for every decoder and every file system. |
| Reader.DecoderErrorUnchanged | src/reader.rs:19-38 | A decoder's error reaches the caller as it is; `read` adds no wrapping. |
| Reader.SpreadsheetUnsupported | src/reader.rs:15 | `dir/stem.xlsx` is rejected with the unsupported-extension error before anything is opened. |
| Reader.UpperCaseCsv | src/reader.rs:10-11 | `stem.CSV` and `stem.csv` are both read with the comma-separated CSV settings. |
| Grid.RowCap | src/grid.rs:171 | The body gets at most 1000 rows and never more than the height. It gets all rows exactly when there are at most 1000, and exactly 1000 when there are at least 1000. |
| Grid.AlignOf | src/grid.rs:144-148 | A column aligns right exactly when its type is numeric; otherwise it aligns left, and never centred. |
| Grid.ColumnLayouts | src/grid.rs:141-150 | One alignment per column type, in order: right exactly for numeric types, left exactly for the others. |
| Grid.HeaderLabelRoundTrip | src/grid.rs:156 | The label `name\n[type]` gives back the column name (its first line) and the type text, provided the name has no line break. |
| Grid.ParseHeaderLabelSound | src/grid.rs:156 | Any text read as a header label is exactly the label of the name and type read from it. |
| Grid.HeaderRow | src/grid.rs:152-169 | One header cell per column, in column order. Each is labelled with its column's name and type, and is centred whatever the type. |
| Grid.BodyRow | src/grid.rs:173-199 | A row has one cell per column, and each cell uses its column's alignment. |
| Grid.TableUi | src/grid.rs:125-201 | The header has one cell per column. The body has `min(1000, height)` rows, every row index is below the height (so `get_row` never fails), and each row has one cell per column. A cell aligns right exactly when its column is numeric, the same in every row. |
| Session.Default | src/grid.rs:27-36 | Start-up state: no table, no source, an empty text field and no error. |
| Session.Open | src/grid.rs:86-89 | Open empties `data` and sets `source` to the text field. `error` and `input` are left unchanged. |
| Session.ApplyControls | src/grid.rs:74-92 | The text field is edited first, then Open is handled. The error is never touched. Without a click, the table and source stay as they were. |
| Session.Load | src/grid.rs:94-109 | With no source, an empty source, or a loaded table: nothing changes and nothing is read. With a source and no table: `read` is called once. `Ok` stores the table and leaves the error; `Err` stores the error's display text and leaves `data` empty. Afterwards a non-empty source always has a table or an error. |
| Session.View | src/grid.rs:94-123 | Blank exactly when there is no source or it is empty. The grid of the loaded table exactly when a table is held and no error is set. The stored error text otherwise. The requirement is what keeps `unwrap` from panicking. |
| Session.Update | src/grid.rs:62-123 | A frame calls `read` at most once, and exactly when the source is non-empty and no table is held. It never clears an error. It leaves a table or an error behind for a non-empty source, so the error branch always has an error to show. The grid is drawn only for a held table with no error. |
| Session.IdleUntilOpen | src/grid.rs:27-98 | Start-up has no source, and any frame from a state with no source and no Open click reads nothing, shows a blank panel and still has no source. So every frame before the first Open reads nothing and is blank. |
| Session.UpdateKeepsSettled | src/grid.rs:94-123 | After any frame, a held table has a non-empty source, and a non-empty source has a table or an error. |
| Session.IdleFrameChangesNothing | src/grid.rs:94-98 | A frame with no source, or an empty one, changes no state, reads nothing and shows a blank panel. |
| Session.RetriedWhileFailing | src/grid.rs:100-108 | While every read fails, each of n frames calls `read` once (n reads in all) and `data` stays empty. |
| Session.LoadedTableKept | src/grid.rs:100 | Once a table is held, later frames keep the state and never read. |
| Session.FirstSuccessIsOnlyRead | src/grid.rs:100-108 | If the first read of a run succeeds, it is the only read. The state ends with that table. |
| Session.ReopenReadsAgain | src/grid.rs:86-103 | Pressing Open on a path that is already loaded reads the file again; nothing is cached. |
| Session.StaleErrorHidesLoad | src/grid.rs:86-122 | After an earlier error, opening a file that loads stores the table, but the panel shows the old error text. |
| Session.EmptyOpenKeepsError | src/grid.rs:86-98 | Opening an empty path reads nothing and blanks the panel, but the old error stays in the state. |

## Left out

- egui drawing is not modelled: panels, `TableBuilder`, fonts, row heights, colours, column resizing and `warn_if_debug_build`. It is UI code that uses `f32` floats.
- Viewport virtualization is not modelled. egui decides which of the rows `0..min(1000, height)` are laid out in a given frame; `Grid.TableUi` describes every row that may be drawn.
- Single-line wrapping and the ellipsis are not modelled. They happen inside egui's `LayoutJob`, which is not part of this model.
- Cell values are not modelled. A body cell is identified by its row, column and alignment; the text `AnyValue::to_string` produces for it is polars code.
- The polars decoders and `File::open` are foreign I/O. They are parameters (`Reader.Decoders`), and `CsvReader::from_path` plus `finish` is one call.
- `DataType::is_numeric` and the `Display` of `DataType` and `PolarsError` are polars code. A data type carries its display text and numeric flag, and the session takes the error display as the parameter `show`.
- `DataFrame` internals are not modelled. A table is its height plus its columns' names and types.
- The File/Quit menu, `App::new` (visuals), and the commented-out persistence in `save` are not modelled.
- Reader.Dispatch: `to_lowercase` is modelled for ASCII letters only. Other characters stay as they are. No non-ASCII character lower-cases to a string made only of letters from `csv`, `tsv`, `avro` or `parquet`, so the choice of decoder is the same.
- Paths.ExtensionShape: paths are Unix-style. Windows prefixes and `\` separators are not modelled. A `String` path is always valid UTF-8, so `to_str().unwrap()` cannot fail and is not modelled.
