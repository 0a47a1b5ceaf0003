/**
 * The verbose-mode animator: each started test becomes a `Blob`, its label
 * falling down one screen column, one row per tick, with a coloured trail
 * and a bold head; the tail `size` rows above the head is erased, and a
 * blob whose tail has left its text is dropped. Time is a parameter
 * (`now`) instead of the clock.
 */
module Rain {
  import opened Wrappers
  import opened Screen

  /** The `(min, max)` range of `random.randint` for a blob's size. */
  const SizeMin: int := 10
  const SizeMax: int := 20

  /** The `(speed_min, speed_max)` range a blob's speed is drawn from. */
  const SpeedMin: real := 0.1
  const SpeedMax: real := 0.2

  /** The fields of a blob, as a value. */
  datatype BlobView = BlobView(items: string, column: int, color: Color, size: int, speed: real,
                               index: int, lastDraw: real)

  /** `can_draw(current_time)`: more than `speed` has passed since the last draw. */
  predicate Due(b: BlobView, now: real) {
    now - b.lastDraw > b.speed
  }

  /** The two `(top, attribute)` pairs `draw` walks: the previous head in the blob's colour, then the new head in bold. */
  function TrailPairs(b: BlobView): seq<(int, Style)> {
    [(b.index - 1, Tint(b.color)), (b.index, Highlight)]
  }

  /** The `for top, color in ...` loop of `draw`: write each pair, stopping at the first row past the text or not writable. */
  function Paint(cells: map<Pos, Cell>, b: BlobView, pairs: seq<(int, Style)>, maxY: nat, maxX: nat): map<Pos, Cell>
    decreases |pairs|
  {
    if pairs == [] then cells
    else if pairs[0].0 >= |b.items| || !CanWrite(pairs[0].0, b.column, maxY, maxX) then cells
    else Paint(Written(cells, maxY, maxX, pairs[0].0, b.column, Cell(b.items[pairs[0].0], pairs[0].1)),
               b, pairs[1..], maxY, maxX)
  }

  /** What `draw` writes on the screen. */
  function TrailCells(cells: map<Pos, Cell>, b: BlobView, maxY: nat, maxX: nat): map<Pos, Cell> {
    Paint(cells, b, TrailPairs(b), maxY, maxX)
  }

  /** The blob after `draw`: one row further down, drawn at `now`. */
  function Advanced(b: BlobView, now: real): BlobView {
    b.(index := b.index + 1, lastDraw := now)
  }

  /** `draw`'s result: the tail has passed the end of the text. */
  predicate Finished(b: BlobView) {
    b.index - b.size >= |b.items|
  }

  /** Where a row of this blob's column may be drawn: inside the text and writable. */
  predicate Open(b: BlobView, top: int, maxY: nat, maxX: nat) {
    top < |b.items| && CanWrite(top, b.column, maxY, maxX)
  }

  /**
   * `draw` touches at most the cells of rows `index - 1` and `index` of
   * its column: the first in the blob's colour, the second in bold, and
   * the second only when the first was drawn.
   */
  lemma TrailTouchesTwoRows(cells: map<Pos, Cell>, b: BlobView, maxY: nat, maxX: nat)
    ensures var r := TrailCells(cells, b, maxY, maxX);
            forall p: Pos :: p != (b.index - 1, b.column) && p != (b.index, b.column) ==> At(r, p) == At(cells, p)
    ensures var r := TrailCells(cells, b, maxY, maxX);
            !Open(b, b.index - 1, maxY, maxX) ==> r == cells
    ensures var r := TrailCells(cells, b, maxY, maxX);
            Open(b, b.index - 1, maxY, maxX) ==>
              At(r, (b.index - 1, b.column)) == Some(Cell(b.items[b.index - 1], Tint(b.color)))
    ensures var r := TrailCells(cells, b, maxY, maxX);
            Open(b, b.index - 1, maxY, maxX) && Open(b, b.index, maxY, maxX) ==>
              At(r, (b.index, b.column)) == Some(Cell(b.items[b.index], Highlight))
    ensures var r := TrailCells(cells, b, maxY, maxX);
            Open(b, b.index - 1, maxY, maxX) && !Open(b, b.index, maxY, maxX) ==>
              At(r, (b.index, b.column)) == At(cells, (b.index, b.column))
  {
    var pairs := TrailPairs(b);
    if Open(b, b.index - 1, maxY, maxX) {
      var c1 := Written(cells, maxY, maxX, b.index - 1, b.column, Cell(b.items[b.index - 1], Tint(b.color)));
      assert TrailCells(cells, b, maxY, maxX) == Paint(c1, b, pairs[1..], maxY, maxX);
      assert pairs[1..][0] == (b.index, Highlight) && pairs[1..][1..] == [];
      if Open(b, b.index, maxY, maxX) {
        var c2 := Written(c1, maxY, maxX, b.index, b.column, Cell(b.items[b.index], Highlight));
        assert Paint(c1, b, pairs[1..], maxY, maxX) == Paint(c2, b, [], maxY, maxX);
      }
    }
  }

  /** A blob of `n` letters and size `s`, drawn from index 0, reports itself finished first on the draw that takes its index to `n + s`. */
  lemma FinishedFirstAt(b: BlobView, now: real)
    requires b.index >= 0
    ensures Finished(Advanced(b, now)) <==> b.index + 1 >= |b.items| + b.size
    ensures Finished(Advanced(b, now)) && !Finished(b) ==> b.index + 1 == |b.items| + b.size
  {
  }

  /** Right after a draw at `now` a blob is not due; it is due again once more than `speed` has passed since `now`. */
  lemma DueAgainAfter(b: BlobView, now: real, later: real)
    requires b.speed >= 0.0
    ensures !Due(Advanced(b, now), now)
    ensures Due(Advanced(b, now), later) <==> later - now > b.speed
  {
  }

  /** One falling label. */
  class Blob {
    const items: string
    const column: int
    const color: Color
    const size: int
    const speed: real
    var index: int
    var lastDraw: real

    function View(): BlobView
      reads this
    {
      BlobView(items, column, color, size, speed, index, lastDraw)
    }

    /** `Blob(items, column, color, speed, size)`, created at time `now`: due at once. */
    constructor (items: string, column: int, color: Color, speed: real, size: int, now: real)
      ensures View() == BlobView(items, column, color, size, speed, 0, now - speed)
    {
      this.items, this.column, this.color, this.speed, this.size := items, column, color, speed, size;
      index := 0;
      lastDraw := now - speed;
    }

    /** `can_draw(current_time)`. */
    function CanDraw(now: real): (b: bool)
      reads this
      ensures b <==> now > lastDraw + speed
    {
      Due(View(), now)
    }

    /** `draw(stdscr)`: the trail, one step down, and whether the blob is finished. */
    method Draw(screen: Screen, now: real) returns (finished: bool)
      modifies this, screen
      ensures screen.maxY == old(screen.maxY) && screen.maxX == old(screen.maxX)
      ensures screen.cells == TrailCells(old(screen.cells), old(View()), screen.maxY, screen.maxX)
      ensures View() == Advanced(old(View()), now)
      ensures finished <==> Finished(View())
    {
      ghost var v := View();
      var pairs := [(index - 1, Tint(color)), (index, Highlight)];
      var k := 0;
      while k < |pairs|
        invariant 0 <= k <= |pairs|
        invariant screen.maxY == old(screen.maxY) && screen.maxX == old(screen.maxX)
        invariant View() == v
        invariant Paint(screen.cells, v, pairs[k..], screen.maxY, screen.maxX) ==
                  TrailCells(old(screen.cells), v, screen.maxY, screen.maxX)
      {
        var top := pairs[k].0;
        if top >= |items| || !CanWrite(top, column, screen.maxY, screen.maxX) {
          break;
        }
        assert pairs[k..][1..] == pairs[k + 1..];
        screen.AddStr(top, column, Cell(items[top], pairs[k].1));
        k := k + 1;
      }
      index := index + 1;
      lastDraw := now;
      finished := index - size >= |items|;
    }
  }
}
