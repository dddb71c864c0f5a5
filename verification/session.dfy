/** The `App` state of the viewer and the part of `App::update` that is not
    drawing: the text field, the Open button, the load attempt, and the
    choice between drawing the grid and showing the error text. One call of
    `update` is one frame. */
module Session {
  import opened Wrappers
  import opened Tables
  import Paths
  import Reader

  /** The four fields of `App`. */
  datatype App = App(
    data: Option<DataFrame>,
    source: Option<string>,
    input: string,
    error: Option<string>)

  /** `Default::default`: nothing loaded, nothing opened, an empty text
      field and no error. */
  function Default(): (a: App)
    ensures a.data.None? && a.source.None? && a.error.None?
    ensures a.input == ""
  {
    App(None, None, "", None)
  }

  /** No source, or an empty one: the frame returns before any read. */
  predicate Idle(a: App) {
    a.source.None? || |a.source.value| == 0
  }

  /** The frame will call `reader::read` on the source. */
  predicate LoadPending(a: App) {
    !Idle(a) && a.data.None?
  }

  /** The read the frame makes, if any, does not panic on a missing extension. */
  predicate CanLoad(a: App) {
    LoadPending(a) ==> Paths.HasExtension(a.source.value)
  }

  /** What the user did in the data-source panel this frame: the text the
      field now holds, if it was edited, and whether Open was clicked. */
  datatype Controls = Controls(edited: Option<string>, openClicked: bool)

  const NoInput: Controls := Controls(None, false)

  /** The Open button: forget the table and take the text field as the
      source. The error and the text field are left as they are. */
  function Open(a: App): (b: App)
    ensures b.data.None? && b.source == Some(a.input)
    ensures b.input == a.input && b.error == a.error
  {
    a.(data := None, source := Some(a.input))
  }

  /** The data-source panel: the text field is edited first, then the Open
      button is handled. */
  function ApplyControls(a: App, ui: Controls): (b: App)
    ensures b.input == (if ui.edited.Some? then ui.edited.value else a.input)
    ensures b.error == a.error
    ensures ui.openClicked ==> b.data.None? && b.source == Some(b.input)
    ensures !ui.openClicked ==> b.data == a.data && b.source == a.source
  {
    var edited := if ui.edited.Some? then a.(input := ui.edited.value) else a;
    if ui.openClicked then Open(edited) else edited
  }

  /** The state after the load block, and how many times `read` was called. */
  datatype Loaded = Loaded(app: App, readCalls: nat)

  /** The load block of `update`: with a non-empty source and no table, read
      the source once; a table is kept, a failure is stored as the error's
      display text. The error is never cleared here. */
  function Load(a: App, d: Reader.Decoders, show: Reader.PolarsError -> string): (r: Loaded)
    requires CanLoad(a)
    ensures !LoadPending(a) ==> r == Loaded(a, 0)
    ensures LoadPending(a) ==> r.readCalls == 1
    ensures LoadPending(a) ==> r.app.source == a.source && r.app.input == a.input
    ensures LoadPending(a) && Reader.Read(a.source.value, d).Ok? ==>
      r.app.data == Some(Reader.Read(a.source.value, d).value) && r.app.error == a.error
    ensures LoadPending(a) && Reader.Read(a.source.value, d).Err? ==>
      r.app.data.None? && r.app.error == Some(show(Reader.Read(a.source.value, d).error))
    ensures !Idle(a) ==> r.app.data.Some? || r.app.error.Some?
  {
    if !LoadPending(a) then Loaded(a, 0)
    else
      match Reader.Read(a.source.value, d)
      case Ok(df) => Loaded(a.(data := Some(df)), 1)
      case Err(e) => Loaded(a.(error := Some(show(e))), 1)
  }

  /** What the central panel shows. */
  datatype Screen = Blank | Grid(df: DataFrame) | ErrorText(text: string)

  /** The central panel: blank without a source, the grid when a table is
      loaded and no error is set, and the error text otherwise. The
      requirement is what keeps `self.error.clone().unwrap()` from panicking. */
  function View(a: App): (s: Screen)
    requires !Idle(a) ==> a.data.Some? || a.error.Some?
    ensures s.Blank? <==> Idle(a)
    ensures s.Grid? <==> !Idle(a) && a.data.Some? && a.error.None?
    ensures s.Grid? ==> s.df == a.data.value
    ensures s.ErrorText? ==> a.error == Some(s.text)
  {
    if Idle(a) then Blank
    else if a.data.Some? && a.error.None? then Grid(a.data.value)
    else ErrorText(a.error.value)
  }

  datatype Frame = Frame(app: App, readCalls: nat, screen: Screen)

  /** One call of `App::update`. `d` holds the foreign calls as they answer
      during this frame and `show` is polars' error display. */
  function Update(a: App, ui: Controls, d: Reader.Decoders, show: Reader.PolarsError -> string): (r: Frame)
    requires CanLoad(ApplyControls(a, ui))
    ensures r.readCalls <= 1
    ensures r.readCalls == 1 <==> LoadPending(ApplyControls(a, ui))
    ensures r.app.source == ApplyControls(a, ui).source
    ensures r.app.input == ApplyControls(a, ui).input
    ensures a.error.Some? ==> r.app.error.Some?
    ensures !Idle(r.app) ==> r.app.data.Some? || r.app.error.Some?
    ensures CanLoad(r.app)
    ensures r.screen.Blank? <==> Idle(r.app)
    ensures r.screen.Grid? <==> !Idle(r.app) && r.app.data.Some? && r.app.error.None?
    ensures r.screen.Grid? ==> r.screen.df == r.app.data.value
    ensures r.screen.ErrorText? ==> r.app.error == Some(r.screen.text)
  {
    var b := ApplyControls(a, ui);
    var l := Load(b, d, show);
    Frame(l.app, l.readCalls, View(l.app))
  }

  /** A run of frames in which the user touches nothing; each frame may see
      different answers from the disk. The result is the final state and
      the number of reads made. */
  function Frames(a: App, ds: seq<Reader.Decoders>, show: Reader.PolarsError -> string): (r: (App, nat))
    requires CanLoad(a)
    ensures r.1 <= |ds|
    ensures r.0.source == a.source && r.0.input == a.input
    decreases |ds|
  {
    if |ds| == 0 then (a, 0)
    else
      var f := Update(a, NoInput, ds[0], show);
      var rest := Frames(f.app, ds[1..], show);
      (rest.0, f.readCalls + rest.1)
  }

  /** The state after a frame: a table is only held for a non-empty source,
      and a non-empty source has a table or an error to show. */
  predicate Settled(a: App) {
    && (a.data.Some? ==> !Idle(a))
    && (!Idle(a) ==> a.data.Some? || a.error.Some?)
  }

  /** Until Open is first pressed, every frame reads nothing and shows a
      blank panel: start-up has no source, and a frame without a click,
      whatever it does to the text field, leaves the source unset. */
  lemma IdleUntilOpen(a: App, ui: Controls, d: Reader.Decoders, show: Reader.PolarsError -> string)
    requires a.source.None? && !ui.openClicked
    ensures Settled(Default()) && Default().source.None?
    ensures var r := Update(a, ui, d, show);
      && r.readCalls == 0 && r.screen == Blank && r.app.source.None?
  {
  }

  /** Every frame leaves a settled state behind, so the error branch of the
      central panel always has an error to show. */
  lemma UpdateKeepsSettled(a: App, ui: Controls, d: Reader.Decoders, show: Reader.PolarsError -> string)
    requires Settled(a) && CanLoad(ApplyControls(a, ui))
    ensures Settled(Update(a, ui, d, show).app)
  {
  }

  /** A frame with no source, or an empty one, changes nothing and reads nothing. */
  lemma IdleFrameChangesNothing(a: App, d: Reader.Decoders, show: Reader.PolarsError -> string)
    requires Idle(a)
    ensures Update(a, NoInput, d, show) == Frame(a, 0, Blank)
  {
  }

  /** While the source keeps failing to load, every frame reads it again:
      the failure leaves `data` empty, and only `data` guards the read. */
  lemma {:induction false} RetriedWhileFailing(a: App, ds: seq<Reader.Decoders>, show: Reader.PolarsError -> string)
    requires LoadPending(a) && CanLoad(a)
    requires forall i :: 0 <= i < |ds| ==> Reader.Read(a.source.value, ds[i]).Err?
    ensures Frames(a, ds, show).1 == |ds|
    ensures Frames(a, ds, show).0.data.None?
    decreases |ds|
  {
    if |ds| > 0 {
      var f := Update(a, NoInput, ds[0], show);
      assert LoadPending(f.app);
      assert forall i :: 0 <= i < |ds[1..]| ==> ds[1..][i] == ds[i + 1];
      RetriedWhileFailing(f.app, ds[1..], show);
    }
  }

  /** Once a table is loaded, later frames keep it and never read again. */
  lemma {:induction false} LoadedTableKept(a: App, ds: seq<Reader.Decoders>, show: Reader.PolarsError -> string)
    requires a.data.Some?
    ensures Frames(a, ds, show) == (a, 0)
    decreases |ds|
  {
    if |ds| > 0 {
      LoadedTableKept(a, ds[1..], show);
    }
  }

  /** A successful first read is the only read of the run. */
  lemma FirstSuccessIsOnlyRead(a: App, ds: seq<Reader.Decoders>, show: Reader.PolarsError -> string)
    requires LoadPending(a) && CanLoad(a) && |ds| > 0
    requires Reader.Read(a.source.value, ds[0]).Ok?
    ensures Frames(a, ds, show) == (a.(data := Some(Reader.Read(a.source.value, ds[0]).value)), 1)
  {
    var f := Update(a, NoInput, ds[0], show);
    LoadedTableKept(f.app, ds[1..], show);
  }

  /** Pressing Open reads the file again even when the same path is already
      loaded: nothing is cached across opens. */
  lemma ReopenReadsAgain(a: App, d: Reader.Decoders, show: Reader.PolarsError -> string)
    requires a.data.Some? && a.source == Some(a.input)
    requires Paths.HasExtension(a.input)
    ensures Update(a, Controls(None, true), d, show).readCalls == 1
  {
  }

  /** A stale error hides a later successful load: the error from an
      earlier failure survives Open, so the newly loaded table is held but
      the old error text is what the panel shows. */
  lemma StaleErrorHidesLoad(a: App, d: Reader.Decoders, show: Reader.PolarsError -> string)
    requires a.error.Some? && |a.input| > 0 && Paths.HasExtension(a.input)
    requires Reader.Read(a.input, d).Ok?
    ensures var r := Update(a, Controls(None, true), d, show);
      && r.app.data == Some(Reader.Read(a.input, d).value)
      && r.app.error == a.error
      && r.screen == ErrorText(a.error.value)
  {
  }

  /** Opening an empty path blanks the panel but keeps the error, which
      shows again as soon as a path is opened. */
  lemma EmptyOpenKeepsError(a: App, d: Reader.Decoders, show: Reader.PolarsError -> string)
    requires a.error.Some?
    ensures var r := Update(a, Controls(Some(""), true), d, show);
      && r.screen == Blank && r.readCalls == 0
      && r.app.data.None? && r.app.error == a.error
  {
  }
}
