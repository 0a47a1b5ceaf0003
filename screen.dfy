/**
 * The curses window the reporter draws on, reduced to what the layout
 * needs: an extent `(maxY, maxX)` that may change between any two
 * operations, and a map from positions to the cells written there.
 * A write outside the extent is dropped.
 */
module Screen {
  import opened Wrappers

  /** The three attributes of the live palette, in the order the reporter cycles through them. */
  datatype Color = BrightBold | Green | Bright

  /** How a cell is rendered: the default attribute, the neutral bold head, or a palette colour. */
  datatype Style = Plain | Highlight | Tint(color: Color)

  datatype Cell = Cell(ch: char, style: Style)

  /** `(row, column)`, in the order curses takes them. */
  type Pos = (int, int)

  /** What `addstr(top, left, ' ')` leaves behind. */
  const Blank := Cell(' ', Plain)

  /** The palette entry handed out by the `n`-th call of `next` on the reporter's colour cycle. */
  function Palette(n: nat): Color {
    if n % 3 == 0 then BrightBold else if n % 3 == 1 then Green else Bright
  }

  /** The colour cycle: bright bold, green, bright, and again from the start; consecutive columns differ. */
  lemma PaletteCycles(n: nat)
    ensures Palette(0) == BrightBold && Palette(1) == Green && Palette(2) == Bright
    ensures Palette(n + 3) == Palette(n)
    ensures Palette(n) != Palette(n + 1)
  {
  }

  predicate InBounds(top: int, left: int, maxY: int, maxX: int) {
    0 <= top < maxY && 0 <= left < maxX
  }

  /** The cell at `p`, if anything was ever written there. */
  function At(cells: map<Pos, Cell>, p: Pos): Option<Cell> {
    if p in cells then Some(cells[p]) else None
  }

  /** The cells after one single-character write; a write outside the extent changes nothing. */
  function Written(cells: map<Pos, Cell>, maxY: int, maxX: int, top: int, left: int, c: Cell): (r: map<Pos, Cell>)
    ensures InBounds(top, left, maxY, maxX) ==> At(r, (top, left)) == Some(c)
    ensures forall p :: p != (top, left) ==> At(r, p) == At(cells, p)
    ensures !InBounds(top, left, maxY, maxX) ==> r == cells
  {
    if InBounds(top, left, maxY, maxX) then cells[(top, left) := c] else cells
  }

  /**
   * `can_write`: a cell inside the extent other than the bottom-right one
   * (curses reports an error after writing that cell).
   */
  function CanWrite(top: int, left: int, maxY: int, maxX: int): (b: bool)
    ensures b <==> InBounds(top, left, maxY, maxX) && (top, left) != (maxY - 1, maxX - 1)
  {
    if top < 0 || left < 0 then false
    else if (maxY - 1, maxX - 1) == (top, left) then false
    else if top >= maxY then false
    else if left >= maxX then false
    else true
  }

  class Screen {
    var maxY: nat
    var maxX: nat
    var cells: map<Pos, Cell>

    constructor (rows: nat, cols: nat)
      ensures maxY == rows && maxX == cols && cells == map[]
    {
      maxY, maxX, cells := rows, cols, map[];
    }

    /** The terminal was resized; what was drawn stays as it was. */
    method Resize(rows: nat, cols: nat)
      modifies this
      ensures maxY == rows && maxX == cols && cells == old(cells)
    {
      maxY, maxX := rows, cols;
    }

    /** `addstr(top, left, ch, attr)` for a single character. */
    method AddStr(top: int, left: int, c: Cell)
      modifies this
      ensures maxY == old(maxY) && maxX == old(maxX)
      ensures cells == Written(old(cells), maxY, maxX, top, left, c)
    {
      if InBounds(top, left, maxY, maxX) {
        cells := cells[(top, left) := c];
      }
    }
  }
}
