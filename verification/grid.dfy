/** The display policies of `table_ui`: which rows are handed to the body,
    how each column aligns its cells, and what each header cell says. The
    drawing itself (egui panels, fonts, sizes, colours, text wrapping) is
    not modelled; a cell is described by the row and column it shows and
    its alignment. */
module Grid {
  import opened Wrappers
  import opened Tables

  /** The hard ceiling on the rows the body is given. */
  const MaxRenderedRows: nat := 1000

  /** `egui::Align`. */
  datatype Align = Left | Center | Right

  /** `usize::min(1000, data.height())`. */
  function RowCap(height: nat): (n: nat)
    ensures n <= MaxRenderedRows && n <= height
    ensures n == height <==> height <= MaxRenderedRows
    ensures n == MaxRenderedRows <==> height >= MaxRenderedRows
  {
    if height < MaxRenderedRows then height else MaxRenderedRows
  }

  /** The cross alignment of a column's cells: numeric columns align right,
      every other column aligns left. */
  function AlignOf(t: DataType): (a: Align)
    ensures a != Center
    ensures a == Right <==> IsNumeric(t)
  {
    if IsNumeric(t) then Right else Left
  }

  /** The `layouts` vector: one alignment per column type, in order. */
  method ColumnLayouts(types: seq<DataType>) returns (layouts: seq<Align>)
    ensures |layouts| == |types|
    ensures forall i :: 0 <= i < |types| ==> (layouts[i] == Right <==> IsNumeric(types[i]))
    ensures forall i :: 0 <= i < |types| ==> (layouts[i] == Left <==> !IsNumeric(types[i]))
  {
    layouts := [];
    for i := 0 to |types|
      invariant |layouts| == i
      invariant forall j :: 0 <= j < i ==> layouts[j] == AlignOf(types[j])
    {
      layouts := layouts + [AlignOf(types[i])];
    }
  }

  /** `format!("{}\n[{}]", name, dtype)`: the name on the first line, the
      type in brackets on the second. */
  function HeaderLabel(name: string, typeText: string): string {
    name + "\n[" + typeText + "]"
  }

  /** The position of the first occurrence of `c` in `s`. */
  function FirstIndexOf(s: string, c: char): (r: Option<nat>)
    ensures r.None? <==> c !in s
    ensures r.Some? ==> r.value < |s| && s[r.value] == c && c !in s[..r.value]
  {
    if |s| == 0 then None
    else if s[0] == c then Some(0)
    else
      match FirstIndexOf(s[1..], c)
      case None => None
      case Some(i) =>
        assert s[..i + 1] == [s[0]] + s[1..][..i];
        Some(i + 1)
  }

  /** Reads a header label back into the column name and the type text: the
      name is everything before the first line break. */
  function ParseHeaderLabel(text: string): Option<(string, string)> {
    match FirstIndexOf(text, '\n')
    case None => None
    case Some(i) =>
      var rest := text[i + 1..];
      if |rest| >= 2 && rest[0] == '[' && rest[|rest| - 1] == ']'
      then Some((text[..i], rest[1..|rest| - 1]))
      else None
  }

  /** A header label shows its column's name and type, and both can be read
      back from it, as long as the name has no line break of its own. */
  lemma HeaderLabelRoundTrip(name: string, typeText: string)
    requires '\n' !in name
    ensures ParseHeaderLabel(HeaderLabel(name, typeText)) == Some((name, typeText))
  {
    var text := HeaderLabel(name, typeText);
    assert text[|name|] == '\n';
    assert text[..|name|] == name;
    var i := FirstIndexOf(text, '\n').value;
    assert text[i + 1..] == "[" + typeText + "]";
  }

  /** Every label the parser accepts is the header label of what it returns. */
  lemma ParseHeaderLabelSound(text: string, name: string, typeText: string)
    requires ParseHeaderLabel(text) == Some((name, typeText))
    ensures '\n' !in name
    ensures HeaderLabel(name, typeText) == text
  {
  }

  /** A header cell: its label text, always centred whatever the column type. */
  datatype HeaderCell = HeaderCell(text: string, align: Align)

  /** A body cell: the table row and column whose value it shows, and the
      alignment it is laid out with. */
  datatype BodyCell = BodyCell(row: nat, column: nat, align: Align)

  datatype GridView = GridView(header: seq<HeaderCell>, body: seq<seq<BodyCell>>)

  /** The header closure: one centred cell per column name. */
  method HeaderRow(df: DataFrame) returns (header: seq<HeaderCell>)
    ensures |header| == Width(df)
    ensures forall i :: 0 <= i < |header| ==>
      header[i] == HeaderCell(HeaderLabel(df.columns[i].name, df.columns[i].dtype.display), Center)
  {
    var names := ColumnNames(df);
    var types := ColumnTypes(df);
    header := [];
    for i := 0 to |names|
      invariant |header| == i
      invariant forall j :: 0 <= j < i ==>
        header[j] == HeaderCell(HeaderLabel(df.columns[j].name, df.columns[j].dtype.display), Center)
    {
      header := header + [HeaderCell(HeaderLabel(names[i], types[i].display), Center)];
    }
  }

  /** The row closure for row `r`: one cell per element of the row, each
      laid out with its column's alignment. */
  method BodyRow(r: nat, layouts: seq<Align>) returns (cells: seq<BodyCell>)
    ensures |cells| == |layouts|
    ensures forall c :: 0 <= c < |cells| ==> cells[c] == BodyCell(r, c, layouts[c])
  {
    cells := [];
    for c := 0 to |layouts|
      invariant |cells| == c
      invariant forall k :: 0 <= k < c ==> cells[k] == BodyCell(r, k, layouts[k])
    {
      cells := cells + [BodyCell(r, c, layouts[c])];
    }
  }

  /** `table_ui`: a header of one centred cell per column, then the first
      `min(1000, height)` rows, each with one cell per column aligned by
      that column's type. Every row index handed to `get_row` is below the
      height, so its `expect` never fires. */
  method TableUi(df: DataFrame) returns (view: GridView)
    ensures |view.header| == Width(df)
    ensures forall i :: 0 <= i < |view.header| ==>
      view.header[i] == HeaderCell(HeaderLabel(df.columns[i].name, df.columns[i].dtype.display), Center)
    ensures |view.body| == RowCap(df.height)
    ensures forall r :: 0 <= r < |view.body| ==> r < df.height && |view.body[r]| == Width(df)
    ensures forall r, c :: 0 <= r < |view.body| && 0 <= c < |view.body[r]| ==>
      view.body[r][c] == BodyCell(r, c, AlignOf(df.columns[c].dtype))
    ensures forall r, c :: 0 <= r < |view.body| && 0 <= c < |view.body[r]| ==>
      (view.body[r][c].align == Right <==> IsNumeric(df.columns[c].dtype))
    ensures forall r, c :: 0 <= r < |view.body| && 0 <= c < |view.body[r]| ==>
      (view.body[r][c].align == Left <==> !IsNumeric(df.columns[c].dtype))
  {
    var layouts := ColumnLayouts(ColumnTypes(df));
    var header := HeaderRow(df);
    var totalRows := RowCap(df.height);
    var body: seq<seq<BodyCell>> := [];
    for r := 0 to totalRows
      invariant |body| == r
      invariant forall k :: 0 <= k < r ==> |body[k]| == |layouts|
      invariant forall k, c :: 0 <= k < r && 0 <= c < |body[k]| ==> body[k][c] == BodyCell(k, c, layouts[c])
    {
      var cells := BodyRow(r, layouts);
      body := body + [cells];
    }
    assert forall c :: 0 <= c < |layouts| ==> ColumnTypes(df)[c] == df.columns[c].dtype;
    assert forall c :: 0 <= c < |layouts| ==> (layouts[c] == Right <==> IsNumeric(df.columns[c].dtype));
    assert forall c :: 0 <= c < |layouts| ==> (layouts[c] == Left <==> !IsNumeric(df.columns[c].dtype));
    assert forall c :: 0 <= c < |layouts| ==> layouts[c] == AlignOf(df.columns[c].dtype);
    view := GridView(header, body);
  }
}
