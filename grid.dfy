/**
 * The low-verbosity layout engine of `NeoTerminalReporter`, as functions
 * on values: the cursor fix-up, the trail-drawing `addstr`, column
 * clearing, label drawing, and the per-report cursor moves. The class in
 * reporter.dfy runs the same steps on its fields and is proved to follow
 * these functions.
 */
module Grid {
  import opened Wrappers
  import opened Screen
  import opened Status
  import opened Paths
  import opened PathLemmas

  /** `previous_char`: where the last letter went, the letter, and the colour it fades to. */
  datatype Trail = Trail(top: int, left: int, letter: char, color: Color)

  /** The cursor `(top, left)`, the trail, and the cells on screen. */
  datatype Canvas = Canvas(top: int, left: int, prev: Option<Trail>, cells: map<Pos, Cell>)

  /**
   * The whole drawing state: the canvas, the colour of the current column,
   * how many colours the colour cycle has handed out, and the current file
   * (`currentfspath`, `None` before the first file).
   */
  datatype Layout = Layout(canvas: Canvas, color: Color, handed: nat, current: Option<string>)

  /** A job for the verbose animator: a label and its colour. */
  datatype Job = Job(text: string, color: Color)

  function TrailPos(t: Trail): Pos { (t.top, t.left) }

  /**
   * `fix_coordinate`: leave the bottom-right cell or a row below the screen
   * for the top of the next column, and wrap a column past the right edge
   * to column 0.
   */
  function Fix(top: int, left: int, maxY: int, maxX: int): (r: (int, int))
    ensures maxY >= 1 && maxX >= 1 ==> r.0 < maxY && r.1 < maxX
    ensures r.0 == top || r.0 == 0
    ensures r.1 == left || r.1 == left + 1 || r.1 == 0
    ensures r.0 != 0 ==> r.1 == left || r.1 == 0
    ensures CanWrite(top, left, maxY, maxX) ==> r == (top, left)
  {
    var (t1, l1) := if (maxY - 1, maxX - 1) == (top, left) then (0, left + 1) else (top, left);
    var (t2, l2) := if t1 >= maxY then (0, l1 + 1) else (t1, l1);
    if l2 >= maxX then (t2, 0) else (t2, l2)
  }

  /** On a screen of at least two rows and two columns, a fixed cursor stays where it is. */
  lemma FixIdempotent(top: int, left: int, maxY: int, maxX: int)
    requires maxY >= 2 && maxX >= 2
    ensures var r := Fix(top, left, maxY, maxX); Fix(r.0, r.1, maxY, maxX) == r
  {
  }

  /** On a one-row screen a second fix can move the cursor again. */
  lemma FixNotIdempotentOnOneRow(maxX: int)
    requires maxX >= 2
    ensures Fix(1, maxX - 2, 1, maxX) == (0, maxX - 1)
    ensures Fix(0, maxX - 1, 1, maxX) == (0, 0)
  {
  }

  /** On a one-column screen a second fix can move the cursor again. */
  lemma FixNotIdempotentOnOneColumn(maxY: int)
    requires maxY >= 2
    ensures Fix(maxY - 1, 1, maxY, 1) == (maxY - 1, 0)
    ensures Fix(maxY - 1, 0, maxY, 1) == (0, 0)
  {
  }

  /**
   * `addstr(letter, color)`: fix the cursor, redraw the previous letter in
   * its own colour, draw the new one in neutral bold and remember it.
   */
  function AddStrSpec(k: Canvas, letter: char, color: Color, maxY: int, maxX: int): (r: Canvas)
    ensures (r.top, r.left) == Fix(k.top, k.left, maxY, maxX)
    ensures r.prev == Some(Trail(r.top, r.left, letter, color))
    ensures InBounds(r.top, r.left, maxY, maxX) ==> At(r.cells, (r.top, r.left)) == Some(Cell(letter, Highlight))
  {
    var (t, l) := Fix(k.top, k.left, maxY, maxX);
    var faded := match k.prev
      case None => k.cells
      case Some(p) => Written(k.cells, maxY, maxX, p.top, p.left, Cell(p.letter, Tint(p.color)));
    Canvas(t, l, Some(Trail(t, l, letter, color)), Written(faded, maxY, maxX, t, l, Cell(letter, Highlight)))
  }

  /**
   * The trail effect: after `addstr` the cursor is only the fixed one, the
   * new letter is the one bold cell it wrote, the previous letter is back in
   * its colour, and no other cell changed.
   */
  lemma AddStrTrail(k: Canvas, letter: char, color: Color, maxY: int, maxX: int)
    ensures var r := AddStrSpec(k, letter, color, maxY, maxX);
            k.prev.Some? && TrailPos(k.prev.value) != (r.top, r.left) &&
            InBounds(k.prev.value.top, k.prev.value.left, maxY, maxX) ==>
              At(r.cells, TrailPos(k.prev.value)) == Some(Cell(k.prev.value.letter, Tint(k.prev.value.color)))
    ensures var r := AddStrSpec(k, letter, color, maxY, maxX);
            forall p :: p != (r.top, r.left) && (k.prev.None? || p != TrailPos(k.prev.value)) ==>
              At(r.cells, p) == At(k.cells, p)
  {
  }

  /** `clear_column(left)` over the first `n` rows: blank every writable cell of column `left`. */
  function ClearRows(cells: map<Pos, Cell>, left: int, n: nat, maxY: int, maxX: int): map<Pos, Cell> {
    if n == 0 then cells
    else
      var c := ClearRows(cells, left, n - 1, maxY, maxX);
      if CanWrite(n - 1, left, maxY, maxX) then c[(n - 1, left) := Blank] else c
  }

  /** Exactly the writable cells of the column among the first `n` rows are blank afterwards; nothing else changes. */
  lemma {:induction false} ClearRowsAt(cells: map<Pos, Cell>, left: int, n: nat, maxY: int, maxX: int, p: Pos)
    ensures At(ClearRows(cells, left, n, maxY, maxX), p) ==
            if p.1 == left && 0 <= p.0 < n && CanWrite(p.0, p.1, maxY, maxX) then Some(Blank) else At(cells, p)
  {
    if n > 0 {
      ClearRowsAt(cells, left, n - 1, maxY, maxX, p);
    }
  }

  /** The `for letter in fspath` loop of `write_new_column`: one `addstr` per letter, one row down after each. */
  function DrawLabel(k: Canvas, text: string, color: Color, maxY: int, maxX: int): (r: Canvas)
    ensures text == [] ==> r == k
    ensures text != [] ==> r.prev == Some(Trail(r.top - 1, r.left, text[|text| - 1], color))
    decreases |text|
  {
    if text == [] then k
    else
      var before := DrawLabel(k, text[..|text| - 1], color, maxY, maxX);
      var after := AddStrSpec(before, text[|text| - 1], color, maxY, maxX);
      after.(top := after.top + 1)
  }

  /**
   * The label a column shows: `prepare_fspath(currentfspath)`. Before any
   * file, `currentfspath` is `None`, whose label is `"None"` (`LabelOfNone`).
   */
  function LabelOf(current: Option<string>): string {
    match current
    case Some(p) => PrepareFspath(p)
    case None => "None"
  }

  /** `prepare_fspath(None)` works on `str(None)`, which it leaves as it is. */
  lemma LabelOfNone()
    ensures LabelOf(None) == PrepareFspath("None")
  {
    var s := "None";
    BasenameSpec(s);
    assert |Basename(s)| == |s|;
    NoColonNoSep(s);
    NoDotStem(s);
    CleanSpec(s);
    assert Clean(s) == s;
  }

  /**
   * `write_new_column`: take the next colour, blank both columns of the
   * pair, and draw the label downwards from row 0.
   */
  function NewColumnSpec(g: Layout, maxY: nat, maxX: nat): (r: Layout)
    ensures r.color == Palette(g.handed) && r.handed == g.handed + 1 && r.current == g.current
    ensures var t := LabelOf(g.current);
            t != [] ==> r.canvas.prev == Some(Trail(r.canvas.top - 1, r.canvas.left, t[|t| - 1], r.color))
  {
    var color, t := Palette(g.handed), LabelOf(g.current);
    Layout(FreshColumn(g.canvas, t, color, maxY, maxX), color, g.handed + 1, g.current)
  }

  /** Both columns of the pair at `k.left` blanked, then `text` drawn from row 0. */
  function FreshColumn(k: Canvas, text: string, color: Color, maxY: nat, maxX: nat): (r: Canvas)
    ensures text == [] ==> r.top == 0 && r.left == k.left && r.prev == k.prev
    ensures text != [] ==> r.prev == Some(Trail(r.top - 1, r.left, text[|text| - 1], color))
  {
    var cleared := ClearRows(ClearRows(k.cells, k.left, maxY, maxY, maxX), k.left + 1, maxY, maxY, maxX);
    DrawLabel(Canvas(0, k.left, k.prev, cleared), text, color, maxY, maxX)
  }

  /**
   * `write_fspath_result`: on a new file, move two columns right (back to
   * column 0 when that reaches the right edge) and open a new column.
   */
  function WriteFspathResultSpec(g: Layout, fsid: string, maxY: nat, maxX: nat): (r: Layout)
    ensures r.current == Some(fsid)
    ensures g.current == Some(fsid) ==> r == g
    ensures g.current != Some(fsid) ==> r.handed == g.handed + 1 && r.color == Palette(g.handed)
  {
    if g.current == Some(fsid) then g
    else
      var l := g.canvas.left + 2;
      var moved := g.(current := Some(fsid), canvas := g.canvas.(left := if l >= maxX then 0 else l));
      NewColumnSpec(moved, maxY, maxX)
  }

  /**
   * `pytest_runtest_logstart`: at low verbosity, open a column for a new
   * file; otherwise hand the animator a job with the next colour.
   */
  function LogStartSpec(g: Layout, nodeid: string, verbosity: int, maxY: nat, maxX: nat): (r: (Layout, Option<Job>))
    ensures r.1.None? <==> verbosity <= 0
    ensures verbosity <= 0 ==> r.0.current == Some(FilePart(nodeid))
    ensures r.1.Some? ==> r.1.value.color == Palette(g.handed) && r.0 == g.(handed := g.handed + 1)
  {
    if verbosity <= 0 then (WriteFspathResultSpec(g, FilePart(nodeid), maxY, maxX), None)
    else (g.(handed := g.handed + 1), Some(Job(PrepareFspath(nodeid), Palette(g.handed))))
  }

  /**
   * The drawing part of `pytest_runtest_logreport` at low verbosity: a
   * setup report at an unwritable cursor opens a column one to the right;
   * teardown moves one row down; any other report draws its letter.
   */
  function LogReportSpec(g: Layout, r: Report, verbosity: int, maxY: nat, maxX: nat): (res: Layout)
    ensures verbosity > 0 ==> res == g
    ensures res.current == g.current
    ensures res.handed == if verbosity <= 0 && r.when == Setup && !CanWrite(g.canvas.top, g.canvas.left, maxY, maxX)
                          then g.handed + 1 else g.handed
    ensures verbosity <= 0 && r.when == Teardown ==> res == g.(canvas := g.canvas.(top := g.canvas.top + 1))
    ensures verbosity <= 0 && r.when != Teardown ==>
              res.canvas.prev == Some(Trail(res.canvas.top, res.canvas.left, Letter(r), res.color))
  {
    if verbosity > 0 then g
    else
      var shifted := if r.when == Setup && !CanWrite(g.canvas.top, g.canvas.left, maxY, maxX)
                    then ReopenColumn(g, maxY, maxX)
                    else g;
      if r.when == Teardown then shifted.(canvas := shifted.canvas.(top := shifted.canvas.top + 1))
      else PlaceLetter(shifted, Letter(r), maxY, maxX)
  }

  /** A setup that finds its cursor off the grid: a new column one to the right of the current one. */
  function ReopenColumn(g: Layout, maxY: nat, maxX: nat): Layout {
    NewColumnSpec(g.(canvas := g.canvas.(left := g.canvas.left + 1)), maxY, maxX)
  }

  /** `addstr` of one status letter in the column's colour. */
  function PlaceLetter(g: Layout, letter: char, maxY: nat, maxX: nat): Layout {
    g.(canvas := AddStrSpec(g.canvas, letter, g.color, maxY, maxX))
  }

  /** Whether a report adds its letter to the history: call-phase and skipped reports, never teardown. */
  predicate Recorded(r: Report) {
    r.when != Teardown && (r.when == Call || Skipped(r))
  }

  /** `history[file part].append(letter)` on a `defaultdict(list)`. */
  function Lookup(h: map<string, seq<char>>, k: string): seq<char> {
    if k in h then h[k] else []
  }

  /** The history part of `pytest_runtest_logreport`. */
  function RecordSpec(h: map<string, seq<char>>, r: Report): (h': map<string, seq<char>>)
    ensures Lookup(h', FilePart(r.nodeid)) == Lookup(h, FilePart(r.nodeid)) + (if Recorded(r) then [Letter(r)] else [])
    ensures forall k :: k != FilePart(r.nodeid) ==> Lookup(h', k) == Lookup(h, k)
    ensures forall k :: k in h' <==> k in h || (Recorded(r) && k == FilePart(r.nodeid))
  {
    if Recorded(r) then h[FilePart(r.nodeid) := Lookup(h, FilePart(r.nodeid)) + [Letter(r)]] else h
  }
}
