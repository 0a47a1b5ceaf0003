/**
 * `NeoTerminalReporter` at low verbosity, as a class whose fields are the
 * reporter's own (`top`, `left`, `previous_char`, `column_color`, the colour
 * cycle, `currentfspath`, `history`) over a curses window. Every method is
 * proved to move the state exactly as the matching function of module Grid
 * says, so the properties proved there hold of the class.
 */
module Reporter {
  import opened Wrappers
  import opened Screen
  import opened Status
  import opened Paths
  import opened PathLemmas
  import opened Grid
  import History

  class NeoReporter {
    const screen: Screen
    const verbosity: int
    var top: int
    var left: int
    var prev: Option<Trail>
    var color: Color
    /** How many colours `COLOR_CHAIN` has handed out so far. */
    var handed: nat
    var current: Option<string>
    var history: map<string, seq<char>>

    /** The drawing state the Grid functions speak about. */
    function State(): Layout
      reads this, screen
    {
      Layout(Canvas(top, left, prev, screen.cells), color, handed, current)
    }

    /** `__init__`: the cursor starts two columns left of column 0, so the first file lands in column 0. */
    constructor (s: Screen, v: int)
      ensures screen == s && verbosity == v
      ensures top == 0 && left == -2 && prev == None && handed == 0 && current == None && history == map[]
    {
      screen, verbosity := s, v;
      top, left, prev, color, handed, current, history := 0, -2, None, BrightBold, 0, None, map[];
    }

    /** `fix_coordinate`. */
    method FixCoordinate()
      modifies this
      ensures (top, left) == Fix(old(top), old(left), screen.maxY, screen.maxX)
      ensures prev == old(prev) && color == old(color) && handed == old(handed)
      ensures current == old(current) && history == old(history)
    {
      var maxY: int, maxX: int := screen.maxY, screen.maxX;
      if (maxY - 1, maxX - 1) == (top, left) {
        top := 0;
        left := left + 1;
      }
      if top >= maxY {
        top := 0;
        left := left + 1;
      }
      if left >= maxX {
        left := 0;
      }
    }

    /** `addstr(letter, color)`. */
    method AddStr(letter: char, c: Color)
      modifies this, screen
      ensures screen.maxY == old(screen.maxY) && screen.maxX == old(screen.maxX)
      ensures State() == old(State()).(canvas := AddStrSpec(old(State()).canvas, letter, c, screen.maxY, screen.maxX))
      ensures history == old(history)
    {
      FixCoordinate();
      if prev.Some? {
        screen.AddStr(prev.value.top, prev.value.left, Cell(prev.value.letter, Tint(prev.value.color)));
      }
      screen.AddStr(top, left, Cell(letter, Highlight));
      prev := Some(Trail(top, left, letter, c));
    }

    /** `clear_column(col)`: blank every writable cell of the column, top to bottom. */
    method ClearColumn(col: int)
      modifies screen
      ensures screen.maxY == old(screen.maxY) && screen.maxX == old(screen.maxX)
      ensures screen.cells == ClearRows(old(screen.cells), col, screen.maxY, screen.maxY, screen.maxX)
    {
      var y := 0;
      while y < screen.maxY
        invariant 0 <= y <= screen.maxY
        invariant screen.maxY == old(screen.maxY) && screen.maxX == old(screen.maxX)
        invariant screen.cells == ClearRows(old(screen.cells), col, y, screen.maxY, screen.maxX)
      {
        if CanWrite(y, col, screen.maxY, screen.maxX) {
          screen.AddStr(y, col, Blank);
        }
        y := y + 1;
      }
    }

    /** `write_new_column`. */
    method WriteNewColumn()
      modifies this, screen
      ensures screen.maxY == old(screen.maxY) && screen.maxX == old(screen.maxX)
      ensures State() == NewColumnSpec(old(State()), screen.maxY, screen.maxX)
      ensures history == old(history)
    {
      color := Palette(handed);
      handed := handed + 1;
      DrawColumn(LabelOf(current));
    }

    /** The drawing half of `write_new_column`: blank the column pair, then draw `text` from row 0. */
    method DrawColumn(text: string)
      modifies this, screen
      ensures screen.maxY == old(screen.maxY) && screen.maxX == old(screen.maxX)
      ensures Canvas(top, left, prev, screen.cells) ==
              FreshColumn(old(Canvas(top, left, prev, screen.cells)), text, color, screen.maxY, screen.maxX)
      ensures color == old(color) && handed == old(handed) && current == old(current) && history == old(history)
    {
      ClearColumn(left);
      ClearColumn(left + 1);
      top := 0;
      ghost var blank := Canvas(0, left, prev, screen.cells);
      var i := 0;
      while i < |text|
        invariant 0 <= i <= |text|
        invariant screen.maxY == old(screen.maxY) && screen.maxX == old(screen.maxX)
        invariant color == old(color) && handed == old(handed) && current == old(current) && history == old(history)
        invariant Canvas(top, left, prev, screen.cells) == DrawLabel(blank, text[..i], color, screen.maxY, screen.maxX)
      {
        AddStr(text[i], color);
        top := top + 1;
        assert text[..i + 1][..i] == text[..i];
        i := i + 1;
      }
      assert text[..i] == text;
    }

    /** `write_fspath_result`: open a new column two to the right when the file part changes. */
    method WriteFspathResult(nodeid: string)
      modifies this, screen
      ensures screen.maxY == old(screen.maxY) && screen.maxX == old(screen.maxX)
      ensures State() == WriteFspathResultSpec(old(State()), FilePart(nodeid), screen.maxY, screen.maxX)
      ensures history == old(history)
    {
      var fspath := FilePart(nodeid);
      if Some(fspath) != current {
        OpenFile(fspath);
      }
    }

    /** The new-file branch of `write_fspath_result`: the pair moves two columns right and the file's column is drawn. */
    method OpenFile(fspath: string)
      requires current != Some(fspath)
      modifies this, screen
      ensures screen.maxY == old(screen.maxY) && screen.maxX == old(screen.maxX)
      ensures State() == WriteFspathResultSpec(old(State()), fspath, screen.maxY, screen.maxX)
      ensures history == old(history)
    {
      ghost var g := State();
      current := Some(fspath);
      left := if left + 2 >= screen.maxX then 0 else left + 2;
      ghost var moved := State();
      assert moved == g.(current := Some(fspath), canvas := g.canvas.(left := left));
      WriteNewColumn();
      assert State() == NewColumnSpec(moved, screen.maxY, screen.maxX);
    }

    /** `pytest_runtest_logstart`: the job returned is what goes on the animator's queue. */
    method LogStart(nodeid: string) returns (job: Option<Job>)
      modifies this, screen
      ensures screen.maxY == old(screen.maxY) && screen.maxX == old(screen.maxX)
      ensures (State(), job) == LogStartSpec(old(State()), nodeid, verbosity, screen.maxY, screen.maxX)
      ensures history == old(history)
    {
      if verbosity <= 0 {
        StartFile(nodeid);
        job := None;
      } else {
        job := Some(Job(PrepareFspath(nodeid), Palette(handed)));
        handed := handed + 1;
      }
    }

    /** The low-verbosity half of `pytest_runtest_logstart`: open the column of the node id's file. */
    method StartFile(nodeid: string)
      requires verbosity <= 0
      modifies this, screen
      ensures screen.maxY == old(screen.maxY) && screen.maxX == old(screen.maxX)
      ensures (State(), None) == LogStartSpec(old(State()), nodeid, verbosity, screen.maxY, screen.maxX)
      ensures history == old(history)
    {
      ghost var g := State();
      var fsid := FilePart(nodeid);
      FilePartIdempotent(nodeid);
      WriteFspathResult(fsid);
      assert State() == WriteFspathResultSpec(g, FilePart(nodeid), screen.maxY, screen.maxX);
    }

    /** `pytest_runtest_logreport`: record the letter in the history, then draw it. */
    method LogReport(r: Report)
      modifies this, screen
      ensures screen.maxY == old(screen.maxY) && screen.maxX == old(screen.maxX)
      ensures State() == LogReportSpec(old(State()), r, verbosity, screen.maxY, screen.maxX)
      ensures history == RecordSpec(old(history), r)
    {
      RecordHistory(r);
      DrawReport(r);
    }

    /** The history half of `pytest_runtest_logreport`: call-phase and skipped letters go under the file part. */
    method RecordHistory(r: Report)
      modifies this
      ensures history == RecordSpec(old(history), r)
      ensures top == old(top) && left == old(left) && prev == old(prev)
      ensures color == old(color) && handed == old(handed) && current == old(current)
    {
      if r.when != Teardown {
        if r.when == Call || Skipped(r) {
          var key := FilePart(r.nodeid);
          history := history[key := Lookup(history, key) + [Letter(r)]];
        }
      }
    }

    /** The drawing half of `pytest_runtest_logreport`, at low verbosity. */
    method DrawReport(r: Report)
      modifies this, screen
      ensures screen.maxY == old(screen.maxY) && screen.maxX == old(screen.maxX)
      ensures State() == LogReportSpec(old(State()), r, verbosity, screen.maxY, screen.maxX)
      ensures history == old(history)
    {
      if verbosity <= 0 {
        ReopenIfOffGrid(r);
        ghost var shifted := State();
        if r.when == Teardown {
          top := top + 1;
        } else {
          AddStr(Letter(r), color);
          assert State() == PlaceLetter(shifted, Letter(r), screen.maxY, screen.maxX);
        }
      }
    }

    /** A setup report whose cursor is off the grid opens a new column one to the right. */
    method ReopenIfOffGrid(r: Report)
      modifies this, screen
      ensures screen.maxY == old(screen.maxY) && screen.maxX == old(screen.maxX)
      ensures State() == if r.when == Setup && !CanWrite(old(top), old(left), screen.maxY, screen.maxX)
                         then ReopenColumn(old(State()), screen.maxY, screen.maxX) else old(State())
      ensures history == old(history)
    {
      if r.when == Setup {
        if !CanWrite(top, left, screen.maxY, screen.maxX) {
          NextColumn();
        }
      }
    }

    /** `self.left += 1; self.write_new_column()`. */
    method NextColumn()
      modifies this, screen
      ensures screen.maxY == old(screen.maxY) && screen.maxX == old(screen.maxX)
      ensures State() == ReopenColumn(old(State()), screen.maxY, screen.maxX)
      ensures history == old(history)
    {
      ghost var g := State();
      left := left + 1;
      assert State() == g.(canvas := g.canvas.(left := g.canvas.left + 1));
      WriteNewColumn();
    }

    /**
     * `print_history(max_x)`: the history's labels and letters as sorted
     * columns, `int(max_x / 2)` per block (at least one, see `History`).
     * `order` is the order in which the dictionary was iterated; the
     * output does not depend on it (`History.SortedEntriesIndependentOfOrder`).
     */
    method PrintHistory(maxX: nat) returns (order: seq<string>, out: seq<History.Token>)
      ensures History.Listing(history, order)
      ensures out == History.Output(History.Sort(History.Labelled(history, order)), History.BlockWidth(maxX))
    {
      order := History.ListKeys(history);
      var entries := History.Labelled(history, order);
      out := History.PrintEntries(History.Sort(entries), History.BlockWidth(maxX));
    }
  }
}
