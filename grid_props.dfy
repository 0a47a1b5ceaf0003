/** What the low-verbosity layout promises, proved about the functions of module Grid. */
module GridProps {
  import opened Wrappers
  import opened Screen
  import opened Status
  import opened Paths
  import opened Grid

  /**
   * A label that fits the column is drawn one glyph per row from row 0:
   * every glyph but the last in the column colour, the last one bold, the
   * cursor one row below it, and nothing outside those rows touched except
   * the cell of the old trail.
   */
  lemma LabelDrawnDown(k: Canvas, text: string, color: Color, maxY: int, maxX: int)
    requires k.top == 0 && 0 <= k.left < maxX && |text| < maxY
    ensures var r := DrawLabel(k, text, color, maxY, maxX);
            r.top == |text| && r.left == k.left
    ensures text == [] ==> DrawLabel(k, text, color, maxY, maxX) == k
    ensures var r := DrawLabel(k, text, color, maxY, maxX);
            text != [] ==> r.prev == Some(Trail(|text| - 1, k.left, text[|text| - 1], color))
    ensures var r := DrawLabel(k, text, color, maxY, maxX);
            forall i :: 0 <= i < |text| - 1 ==> At(r.cells, (i, k.left)) == Some(Cell(text[i], Tint(color)))
    ensures var r := DrawLabel(k, text, color, maxY, maxX);
            text != [] ==> At(r.cells, (|text| - 1, k.left)) == Some(Cell(text[|text| - 1], Highlight))
    ensures var r := DrawLabel(k, text, color, maxY, maxX);
            forall p: Pos :: (p.1 != k.left || p.0 < 0 || p.0 >= |text|) && (k.prev.None? || p != TrailPos(k.prev.value)) ==>
              At(r.cells, p) == At(k.cells, p)
  {
    LabelCursor(k, text, color, maxY, maxX);
    LabelCells(k, text, color, maxY, maxX);
  }

  /** The cells half of `LabelDrawnDown`, by induction on the label. */
  lemma {:induction false} LabelCells(k: Canvas, text: string, color: Color, maxY: int, maxX: int)
    requires k.top == 0 && 0 <= k.left < maxX && |text| < maxY
    ensures var r := DrawLabel(k, text, color, maxY, maxX);
            forall i :: 0 <= i < |text| - 1 ==> At(r.cells, (i, k.left)) == Some(Cell(text[i], Tint(color)))
    ensures var r := DrawLabel(k, text, color, maxY, maxX);
            text != [] ==> At(r.cells, (|text| - 1, k.left)) == Some(Cell(text[|text| - 1], Highlight))
    ensures var r := DrawLabel(k, text, color, maxY, maxX);
            forall p: Pos :: (p.1 != k.left || p.0 < 0 || p.0 >= |text|) && OffTrail(k.prev, p) ==>
              At(r.cells, p) == At(k.cells, p)
    decreases |text|
  {
    var n := |text|;
    if n > 0 {
      var pre, c := text[..n - 1], text[n - 1];
      LabelCursor(k, pre, color, maxY, maxX);
      LabelCells(k, pre, color, maxY, maxX);
      var before := DrawLabel(k, pre, color, maxY, maxX);
      LabelStep(k, pre, c, before, color, maxY, maxX);
      assert DrawLabel(k, text, color, maxY, maxX) == AddStrSpec(before, c, color, maxY, maxX).(top := n);
      assert forall i :: 0 <= i < n - 1 ==> text[i] == pre[i];
    }
  }

  /** A label that fits leaves the cursor in its column, one row below the label. */
  lemma {:induction false} LabelCursor(k: Canvas, text: string, color: Color, maxY: int, maxX: int)
    requires k.top == 0 && 0 <= k.left < maxX && |text| < maxY
    ensures var r := DrawLabel(k, text, color, maxY, maxX);
            r.top == |text| && r.left == k.left
    decreases |text|
  {
    if text != [] {
      var pre := text[..|text| - 1];
      LabelCursor(k, pre, color, maxY, maxX);
      assert CanWrite(|pre|, k.left, maxY, maxX);
    }
  }

  /** One letter more of the label: `addstr` at row `|pre|` extends what `LabelDrawnDown` states about `pre`. */
  lemma LabelStep(k: Canvas, pre: string, c: char, before: Canvas, color: Color, maxY: int, maxX: int)
    requires k.top == 0 && 0 <= k.left < maxX && |pre| + 1 < maxY
    requires before.top == |pre| && before.left == k.left
    requires pre == [] ==> before == k
    requires pre != [] ==> before.prev == Some(Trail(|pre| - 1, k.left, pre[|pre| - 1], color))
    requires forall i :: 0 <= i < |pre| - 1 ==> At(before.cells, (i, k.left)) == Some(Cell(pre[i], Tint(color)))
    requires forall p: Pos :: (p.1 != k.left || p.0 < 0 || p.0 >= |pre|) && OffTrail(k.prev, p) ==>
               At(before.cells, p) == At(k.cells, p)
    ensures var a := AddStrSpec(before, c, color, maxY, maxX);
            a.top == |pre| && a.left == k.left && a.prev == Some(Trail(|pre|, k.left, c, color))
    ensures var a := AddStrSpec(before, c, color, maxY, maxX);
            forall i :: 0 <= i < |pre| ==> At(a.cells, (i, k.left)) == Some(Cell(pre[i], Tint(color)))
    ensures var a := AddStrSpec(before, c, color, maxY, maxX);
            At(a.cells, (|pre|, k.left)) == Some(Cell(c, Highlight))
    ensures var a := AddStrSpec(before, c, color, maxY, maxX);
            forall p: Pos :: (p.1 != k.left || p.0 < 0 || p.0 > |pre|) && OffTrail(k.prev, p) ==>
              At(a.cells, p) == At(k.cells, p)
  {
    assert CanWrite(|pre|, k.left, maxY, maxX);
    AddStrTrail(before, c, color, maxY, maxX);
  }

  /** `p` is not where the old trail letter sits (that cell is redrawn by the first `addstr`). */
  predicate OffTrail(prev: Option<Trail>, p: Pos) {
    prev.None? || p != TrailPos(prev.value)
  }

  /**
   * `write_new_column`, when the label fits: the column gets the next colour
   * of the cycle, the label is drawn down from row 0 and the cursor ends one
   * row below it.
   */
  lemma NewColumnDraws(g: Layout, maxY: nat, maxX: nat)
    requires 0 <= g.canvas.left < maxX && |LabelOf(g.current)| < maxY
    ensures var r := NewColumnSpec(g, maxY, maxX);
            r.color == Palette(g.handed) && r.handed == g.handed + 1 && r.current == g.current &&
            r.canvas.top == |LabelOf(g.current)| && r.canvas.left == g.canvas.left
    ensures var r := NewColumnSpec(g, maxY, maxX); var t := LabelOf(g.current);
            forall i :: 0 <= i < |t| - 1 ==> At(r.canvas.cells, (i, g.canvas.left)) == Some(Cell(t[i], Tint(r.color)))
    ensures var r := NewColumnSpec(g, maxY, maxX); var t := LabelOf(g.current);
            t != [] ==> At(r.canvas.cells, (|t| - 1, g.canvas.left)) == Some(Cell(t[|t| - 1], Highlight)) &&
                        r.canvas.prev == Some(Trail(|t| - 1, g.canvas.left, t[|t| - 1], r.color))
  {
    FreshColumnDraws(g.canvas, LabelOf(g.current), Palette(g.handed), maxY, maxX);
  }

  lemma FreshColumnDraws(k: Canvas, t: string, color: Color, maxY: nat, maxX: nat)
    requires 0 <= k.left < maxX && |t| < maxY
    ensures var r := FreshColumn(k, t, color, maxY, maxX);
            r.top == |t| && r.left == k.left &&
            (forall i :: 0 <= i < |t| - 1 ==> At(r.cells, (i, k.left)) == Some(Cell(t[i], Tint(color)))) &&
            (t != [] ==> At(r.cells, (|t| - 1, k.left)) == Some(Cell(t[|t| - 1], Highlight)) &&
                         r.prev == Some(Trail(|t| - 1, k.left, t[|t| - 1], color)))
  {
    var cleared := ClearRows(ClearRows(k.cells, k.left, maxY, maxY, maxX), k.left + 1, maxY, maxY, maxX);
    var start := Canvas(0, k.left, k.prev, cleared);
    assert FreshColumn(k, t, color, maxY, maxX) == DrawLabel(start, t, color, maxY, maxX);
    LabelCursor(start, t, color, maxY, maxX);
    LabelCells(start, t, color, maxY, maxX);
  }

  /**
   * `write_new_column` blanks the pair: below a label that fits, every
   * writable cell of the first column, and every writable cell of the
   * second, is blank (the old trail cell excepted, which is redrawn).
   */
  lemma NewColumnBlanks(g: Layout, maxY: nat, maxX: nat)
    requires 0 <= g.canvas.left < maxX && |LabelOf(g.current)| < maxY
    ensures var r := NewColumnSpec(g, maxY, maxX);
            forall p: Pos :: (p.1 == g.canvas.left + 1 || (p.1 == g.canvas.left && p.0 >= |LabelOf(g.current)|)) &&
                             CanWrite(p.0, p.1, maxY, maxX) && OffTrail(g.canvas.prev, p) ==>
              At(r.canvas.cells, p) == Some(Blank)
  {
    FreshColumnBlanks(g.canvas, LabelOf(g.current), Palette(g.handed), maxY, maxX);
  }

  lemma FreshColumnBlanks(k: Canvas, t: string, color: Color, maxY: nat, maxX: nat)
    requires 0 <= k.left < maxX && |t| < maxY
    ensures var r := FreshColumn(k, t, color, maxY, maxX);
            forall p: Pos :: (p.1 == k.left + 1 || (p.1 == k.left && p.0 >= |t|)) &&
                             CanWrite(p.0, p.1, maxY, maxX) && OffTrail(k.prev, p) ==>
              At(r.cells, p) == Some(Blank)
  {
    var l := k.left;
    var once := ClearRows(k.cells, l, maxY, maxY, maxX);
    var cleared := ClearRows(once, l + 1, maxY, maxY, maxX);
    var start := Canvas(0, l, k.prev, cleared);
    LabelDrawnDown(start, t, color, maxY, maxX);
    var r := FreshColumn(k, t, color, maxY, maxX);
    forall p: Pos | (p.1 == l + 1 || (p.1 == l && p.0 >= |t|)) && CanWrite(p.0, p.1, maxY, maxX) && OffTrail(k.prev, p)
      ensures At(r.cells, p) == Some(Blank)
    {
      ClearRowsAt(k.cells, l, maxY, maxY, maxX, p);
      ClearRowsAt(once, l + 1, maxY, maxY, maxX, p);
    }
  }

  /**
   * `write_fspath_result`: the first report of a new file moves the pair two
   * columns right (to column 0 when that reaches the right edge) and draws
   * the file's label there in the next colour; a report of the current file
   * changes nothing.
   */
  lemma NewFileMovesTwo(g: Layout, fsid: string, maxY: nat, maxX: nat)
    requires maxX >= 1 && g.canvas.left + 2 >= 0 && |PrepareFspath(fsid)| < maxY
    ensures g.current == Some(fsid) ==> WriteFspathResultSpec(g, fsid, maxY, maxX) == g
    ensures var r := WriteFspathResultSpec(g, fsid, maxY, maxX);
            var l := if g.canvas.left + 2 >= maxX then 0 else g.canvas.left + 2;
            var t := PrepareFspath(fsid);
            g.current != Some(fsid) ==>
              r.current == Some(fsid) && r.canvas.left == l && r.canvas.top == |t| &&
              r.color == Palette(g.handed) && r.handed == g.handed + 1 &&
              (forall i :: 0 <= i < |t| - 1 ==> At(r.canvas.cells, (i, l)) == Some(Cell(t[i], Tint(r.color)))) &&
              (t != [] ==> At(r.canvas.cells, (|t| - 1, l)) == Some(Cell(t[|t| - 1], Highlight)))
  {
    if g.current != Some(fsid) {
      var l := g.canvas.left + 2;
      var moved := g.(current := Some(fsid), canvas := g.canvas.(left := if l >= maxX then 0 else l));
      assert LabelOf(moved.current) == PrepareFspath(fsid);
      NewColumnDraws(moved, maxY, maxX);
      assert WriteFspathResultSpec(g, fsid, maxY, maxX) == NewColumnSpec(moved, maxY, maxX);
    }
  }

  /**
   * A setup, call, teardown sequence at a writable cursor: the setup letter
   * and then the call letter are drawn bold in the cursor cell, teardown
   * draws nothing, and the cursor ends exactly one row lower in the same
   * column, with the call letter as the trail.
   */
  lemma SetupCallTeardown(g: Layout, s: Report, c: Report, t: Report, verbosity: int, maxY: nat, maxX: nat)
    requires verbosity <= 0
    requires s.when == Setup && c.when == Call && t.when == Teardown
    requires CanWrite(g.canvas.top, g.canvas.left, maxY, maxX)
    ensures var g1 := LogReportSpec(g, s, verbosity, maxY, maxX);
            At(g1.canvas.cells, (g.canvas.top, g.canvas.left)) == Some(Cell(Letter(s), Highlight))
    ensures var g2 := LogReportSpec(LogReportSpec(g, s, verbosity, maxY, maxX), c, verbosity, maxY, maxX);
            var g3 := LogReportSpec(g2, t, verbosity, maxY, maxX);
            At(g2.canvas.cells, (g.canvas.top, g.canvas.left)) == Some(Cell(Letter(c), Highlight)) &&
            g3.canvas.cells == g2.canvas.cells &&
            g3.canvas.top == g.canvas.top + 1 && g3.canvas.left == g.canvas.left &&
            g3.canvas.prev == Some(Trail(g.canvas.top, g.canvas.left, Letter(c), g.color)) &&
            g3.color == g.color && g3.handed == g.handed && g3.current == g.current
  {
    var g1 := LogReportSpec(g, s, verbosity, maxY, maxX);
    AddStrTrail(g.canvas, Letter(s), g.color, maxY, maxX);
    assert (g1.canvas.top, g1.canvas.left) == (g.canvas.top, g.canvas.left);
    var g2 := LogReportSpec(g1, c, verbosity, maxY, maxX);
    AddStrTrail(g1.canvas, Letter(c), g1.color, maxY, maxX);
  }

  /**
   * A setup report at an unwritable cursor moves one column right, redraws
   * the current file's label there from row 0 in the next colour, and draws
   * its letter bold just below the label.
   */
  lemma SetupOffGridOpensColumn(g: Layout, s: Report, t: string, verbosity: int, maxY: nat, maxX: nat)
    requires verbosity <= 0 && s.when == Setup && t == LabelOf(g.current)
    requires !CanWrite(g.canvas.top, g.canvas.left, maxY, maxX)
    requires 0 <= g.canvas.left + 1 < maxX && |t| + 1 < maxY
    ensures var r := LogReportSpec(g, s, verbosity, maxY, maxX);
            r.canvas.left == g.canvas.left + 1 && r.canvas.top == |t| &&
            r.color == Palette(g.handed) && r.handed == g.handed + 1 && r.current == g.current
    ensures var r := LogReportSpec(g, s, verbosity, maxY, maxX);
            forall i :: 0 <= i < |t| ==> At(r.canvas.cells, (i, g.canvas.left + 1)) == Some(Cell(t[i], Tint(r.color)))
    ensures var r := LogReportSpec(g, s, verbosity, maxY, maxX);
            At(r.canvas.cells, (|t|, g.canvas.left + 1)) == Some(Cell(Letter(s), Highlight)) &&
            r.canvas.prev == Some(Trail(|t|, g.canvas.left + 1, Letter(s), r.color))
  {
    var shifted := g.(canvas := g.canvas.(left := g.canvas.left + 1));
    var color := Palette(g.handed);
    var r := LogReportSpec(g, s, verbosity, maxY, maxX);
    SetupOffGridUnfolds(g, s, verbosity, maxY, maxX);
    LetterBelowLabel(shifted.canvas, t, color, Letter(s), maxY, maxX);
    var drawn := AddStrSpec(FreshColumn(shifted.canvas, t, color, maxY, maxX), Letter(s), color, maxY, maxX);
    forall i | 0 <= i < |t| ensures At(r.canvas.cells, (i, g.canvas.left + 1)) == Some(Cell(t[i], Tint(r.color))) {
      assert At(drawn.cells, (i, shifted.canvas.left)) == Some(Cell(t[i], Tint(color)));
    }
  }

  /** One `logreport` of a setup phase whose cursor is off the grid is a fresh column one to the right, then the letter. */
  lemma SetupOffGridUnfolds(g: Layout, s: Report, verbosity: int, maxY: nat, maxX: nat)
    requires verbosity <= 0 && s.when == Setup
    requires !CanWrite(g.canvas.top, g.canvas.left, maxY, maxX)
    ensures var shifted := g.canvas.(left := g.canvas.left + 1);
            var color := Palette(g.handed);
            LogReportSpec(g, s, verbosity, maxY, maxX) ==
            Layout(AddStrSpec(FreshColumn(shifted, LabelOf(g.current), color, maxY, maxX), Letter(s), color, maxY, maxX),
                   color, g.handed + 1, g.current)
  {
    var shifted := g.canvas.(left := g.canvas.left + 1);
    var color := Palette(g.handed);
    var reopened := ReopenColumn(g, maxY, maxX);
    assert reopened == Layout(FreshColumn(shifted, LabelOf(g.current), color, maxY, maxX), color, g.handed + 1, g.current);
    assert LogReportSpec(g, s, verbosity, maxY, maxX) == PlaceLetter(reopened, Letter(s), maxY, maxX);
  }

  /** A fresh column followed by one `addstr`: the letter lands just below the whole label, which is now all in colour. */
  lemma LetterBelowLabel(k: Canvas, t: string, color: Color, letter: char, maxY: nat, maxX: nat)
    requires 0 <= k.left < maxX && |t| + 1 < maxY
    ensures var r := AddStrSpec(FreshColumn(k, t, color, maxY, maxX), letter, color, maxY, maxX);
            r.left == k.left && r.top == |t| &&
            (forall i :: 0 <= i < |t| ==> At(r.cells, (i, k.left)) == Some(Cell(t[i], Tint(color)))) &&
            At(r.cells, (|t|, k.left)) == Some(Cell(letter, Highlight)) &&
            r.prev == Some(Trail(|t|, k.left, letter, color))
  {
    var f := FreshColumn(k, t, color, maxY, maxX);
    FreshColumnDraws(k, t, color, maxY, maxX);
    assert CanWrite(|t|, k.left, maxY, maxX);
    AddStrTrail(f, letter, color, maxY, maxX);
  }

  /** The history after a run of reports, one `RecordSpec` per report in event order. */
  function HistoryAfter(h: map<string, seq<char>>, rs: seq<Report>): map<string, seq<char>>
    decreases |rs|
  {
    if rs == [] then h else RecordSpec(HistoryAfter(h, rs[..|rs| - 1]), rs[|rs| - 1])
  }

  /** Reference definition: the letters of the recorded reports of file `k`, in event order. */
  function LettersFor(rs: seq<Report>, k: string): seq<char>
    decreases |rs|
  {
    if rs == [] then []
    else
      var last := rs[|rs| - 1];
      LettersFor(rs[..|rs| - 1], k) + (if Recorded(last) && FilePart(last.nodeid) == k then [Letter(last)] else [])
  }

  /**
   * The history of a file is its old letters followed by the letters of its
   * call-phase and skipped reports, in the order they arrived; a file gets an
   * entry only when it has such a report.
   */
  lemma {:induction false} HistoryInEventOrder(h: map<string, seq<char>>, rs: seq<Report>, k: string)
    ensures Lookup(HistoryAfter(h, rs), k) == Lookup(h, k) + LettersFor(rs, k)
    ensures k in HistoryAfter(h, rs) <==> k in h || LettersFor(rs, k) != []
    decreases |rs|
  {
    if rs != [] {
      HistoryInEventOrder(h, rs[..|rs| - 1], k);
    }
  }
}
