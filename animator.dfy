/**
 * `VerboseReporter`, the animator of verbose mode: a dictionary from screen
 * columns to the blobs falling in them, oldest first. `AddNodeid` puts a
 * new blob in the column whose lowest head is furthest down; `Draw` gives
 * every blob of every column one turn, erasing the cell `size` rows above
 * its head and drawing it when it is due, then drops the blobs that
 * reported themselves finished.
 */
module Animator {
  import opened Wrappers
  import opened Screen
  import opened Rain

  predicate Distinct(s: seq<Blob>) {
    forall i, j :: 0 <= i < j < |s| ==> s[i] != s[j]
  }

  function Elems(s: seq<Blob>): set<Blob> {
    set x | x in s
  }

  /** The blobs' fields, in list order. */
  function Views(bs: seq<Blob>): (vs: seq<BlobView>)
    reads set b | b in bs
    ensures |vs| == |bs|
    ensures forall i :: 0 <= i < |bs| ==> vs[i] == bs[i].View()
  {
    if bs == [] then [] else Views(bs[..|bs| - 1]) + [bs[|bs| - 1].View()]
  }

  /** A blob after its turn: drawn and one row further down if it was due, as it was otherwise. */
  function Step(b: BlobView, now: real): BlobView {
    if Due(b, now) then Advanced(b, now) else b
  }

  /** The blob is drawn on this turn and `draw` reports it finished: it goes on the `delete_list`. */
  predicate Gone(b: BlobView, now: real) {
    Due(b, now) && Finished(Advanced(b, now))
  }

  /** `top_limit`: the head of the next (younger) blob of the column, or -1 for the youngest. */
  function TopLimit(vs: seq<BlobView>, k: nat): int
    requires k < |vs|
  {
    if k + 1 < |vs| then vs[k + 1].index else -1
  }

  /** The erasing half of blob `k`'s turn: blank row `index - size` unless the next blob's head is at or below it. */
  function Erased(cells: map<Pos, Cell>, vs: seq<BlobView>, k: nat, column: int, maxY: nat, maxX: nat): map<Pos, Cell>
    requires k < |vs|
  {
    var eraseTop := vs[k].index - vs[k].size;
    if eraseTop > TopLimit(vs, k) && CanWrite(eraseTop, column, maxY, maxX)
    then Written(cells, maxY, maxX, eraseTop, column, Blank)
    else cells
  }

  /** Blob `k`'s whole turn, with every blob as it was before the pass (the younger ones have not moved yet). */
  function Turn(cells: map<Pos, Cell>, vs: seq<BlobView>, k: nat, column: int, now: real, maxY: nat, maxX: nat): map<Pos, Cell>
    requires k < |vs|
  {
    var erased := Erased(cells, vs, k, column, maxY, maxX);
    if Due(vs[k], now) then TrailCells(erased, vs[k], maxY, maxX) else erased
  }

  /** The screen after the first `k` turns of a column's pass. */
  function PassCells(cells: map<Pos, Cell>, vs: seq<BlobView>, column: int, now: real, maxY: nat, maxX: nat, k: nat): map<Pos, Cell>
    requires k <= |vs|
    decreases k
  {
    if k == 0 then cells
    else Turn(PassCells(cells, vs, column, now, maxY, maxX, k - 1), vs, k - 1, column, now, maxY, maxX)
  }

  /** The screen after a column's whole pass. */
  function ColumnPass(cells: map<Pos, Cell>, vs: seq<BlobView>, column: int, now: real, maxY: nat, maxX: nat): map<Pos, Cell> {
    PassCells(cells, vs, column, now, maxY, maxX, |vs|)
  }

  /** The blobs of column `c`, `[]` for a column the dictionary has never seen. */
  function ColumnOf<T>(m: map<int, seq<T>>, c: int): seq<T> {
    if c in m then m[c] else []
  }

  /** The screen after the passes over `cols`, in that order. */
  function Passes(cells: map<Pos, Cell>, cols: seq<int>, vm: map<int, seq<BlobView>>, now: real, maxY: nat, maxX: nat): map<Pos, Cell>
    decreases |cols|
  {
    if cols == [] then cells
    else
      var last := cols[|cols| - 1];
      ColumnPass(Passes(cells, cols[..|cols| - 1], vm, now, maxY, maxX), ColumnOf(vm, last), last, now, maxY, maxX)
  }

  /** The `delete_list` of a pass: the blobs that finished, in list order. */
  function Dropped(bs: seq<Blob>, vs: seq<BlobView>, now: real): seq<Blob>
    requires |bs| == |vs|
  {
    if bs == [] then []
    else Dropped(bs[..|bs| - 1], vs[..|vs| - 1], now) + (if Gone(vs[|vs| - 1], now) then [bs[|bs| - 1]] else [])
  }

  /** The column's list after a pass: the blobs that did not finish, in their order. */
  function Kept(bs: seq<Blob>, vs: seq<BlobView>, now: real): seq<Blob>
    requires |bs| == |vs|
  {
    if bs == [] then []
    else Kept(bs[..|bs| - 1], vs[..|vs| - 1], now) + (if Gone(vs[|vs| - 1], now) then [] else [bs[|bs| - 1]])
  }

  /** `s` without the members of `X`, in order. */
  function Filter(s: seq<Blob>, X: set<Blob>): seq<Blob> {
    if s == [] then [] else Filter(s[..|s| - 1], X) + (if s[|s| - 1] in X then [] else [s[|s| - 1]])
  }

  /** `list.remove(x)`: the list without the first occurrence of `x`. */
  function RemoveFirst(s: seq<Blob>, x: Blob): (r: seq<Blob>)
    requires x in s
    ensures |r| == |s| - 1
    ensures multiset(r) == multiset(s) - multiset{x}
  {
    assert s == [s[0]] + s[1..];
    if s[0] == x then s[1..] else [s[0]] + RemoveFirst(s[1..], x)
  }

  /** The lowest head of a column, capped at `maxY`: the column's entry in `get_random_column`'s `cols`. */
  function Lowest(vs: seq<BlobView>, maxY: int): int {
    if vs == [] then maxY
    else
      var rest := Lowest(vs[..|vs| - 1], maxY);
      if vs[|vs| - 1].index < rest then vs[|vs| - 1].index else rest
  }

  lemma DroppedGrow(bs: seq<Blob>, vs: seq<BlobView>, k: nat, now: real)
    requires k < |bs| == |vs|
    ensures Dropped(bs[..k + 1], vs[..k + 1], now) ==
            Dropped(bs[..k], vs[..k], now) + (if Gone(vs[k], now) then [bs[k]] else [])
  {
    assert bs[..k + 1][..k] == bs[..k] && vs[..k + 1][..k] == vs[..k];
  }

  lemma ElemsGrow(s: seq<Blob>, j: nat)
    requires j < |s|
    ensures Elems(s[..j + 1]) == Elems(s[..j]) + {s[j]}
  {
    assert s[..j + 1] == s[..j] + [s[j]];
  }

  lemma {:induction false} FilterCons(a: Blob, t: seq<Blob>, X: set<Blob>)
    ensures Filter([a] + t, X) == (if a in X then [] else [a]) + Filter(t, X)
    decreases |t|
  {
    if t != [] {
      var n := |t|;
      assert ([a] + t)[..n] == [a] + t[..n - 1];
      FilterCons(a, t[..n - 1], X);
    }
  }

  lemma {:induction false} FilterKeepsAll(s: seq<Blob>, X: set<Blob>)
    requires forall x :: x in s ==> x !in X
    ensures Filter(s, X) == s
  {
    if s != [] {
      FilterKeepsAll(s[..|s| - 1], X);
      assert s[..|s| - 1] + [s[|s| - 1]] == s;
    }
  }

  /** `x` is in the filtered list exactly when it is in the list and not filtered out; order and distinctness survive. */
  lemma {:induction false} FilterMembers(s: seq<Blob>, X: set<Blob>)
    ensures forall x :: x in Filter(s, X) <==> x in s && x !in X
    ensures Distinct(s) ==> Distinct(Filter(s, X))
  {
    if s != [] {
      var p := s[..|s| - 1];
      FilterMembers(p, X);
      assert s == p + [s[|s| - 1]];
    }
  }

  lemma {:induction false} FilterFilter(s: seq<Blob>, X: set<Blob>, Y: set<Blob>)
    ensures Filter(Filter(s, X), Y) == Filter(s, X + Y)
  {
    if s != [] {
      var p, last := s[..|s| - 1], s[|s| - 1];
      FilterFilter(p, X, Y);
      var fx := Filter(p, X);
      assert s[..|s| - 1] == p;
      if last !in X {
        assert Filter(s, X) == fx + [last];
        assert (fx + [last])[..|fx|] == fx;
        assert Filter(fx + [last], Y) == Filter(fx, Y) + (if last in Y then [] else [last]);
      } else {
        assert Filter(s, X) == fx;
      }
    }
  }

  /** In a list without repeats, `remove` drops exactly `x`. */
  lemma {:induction false} RemoveFirstIsFilter(s: seq<Blob>, x: Blob)
    requires Distinct(s) && x in s
    ensures RemoveFirst(s, x) == Filter(s, {x})
    decreases |s|
  {
    assert s == [s[0]] + s[1..];
    FilterCons(s[0], s[1..], {x});
    if s[0] == x {
      forall y | y in s[1..] ensures y !in {x} {
        var j :| 0 <= j < |s[1..]| && s[1..][j] == y;
        assert s[j + 1] == y;
      }
      FilterKeepsAll(s[1..], {x});
    } else {
      RemoveFirstIsFilter(s[1..], x);
    }
  }

  /**
   * Removing the `delete_list` one blob at a time keeps exactly the blobs
   * that did not finish, in their order.
   */
  lemma {:induction false} DroppedThenKept(bs: seq<Blob>, vs: seq<BlobView>, now: real)
    requires |bs| == |vs| && Distinct(bs)
    ensures Distinct(Dropped(bs, vs, now))
    ensures forall x :: x in Dropped(bs, vs, now) ==> x in bs
    ensures Filter(bs, Elems(Dropped(bs, vs, now))) == Kept(bs, vs, now)
  {
    if bs != [] {
      var n := |bs|;
      var p, last := bs[..n - 1], bs[n - 1];
      DroppedThenKept(p, vs[..n - 1], now);
      var D := Elems(Dropped(bs, vs, now));
      var Dp := Elems(Dropped(p, vs[..n - 1], now));
      assert last !in p;
      assert D == Dp + (if Gone(vs[n - 1], now) then {last} else {});
      FilterFilter(p, Dp, D - Dp);
      assert forall x :: x in p ==> x !in D - Dp;
      FilterKeepsAll(Filter(p, Dp), D - Dp) by {
        FilterMembers(p, Dp);
      }
      assert Filter(p, D) == Filter(p, Dp) by {
        assert Dp + (D - Dp) == D;
      }
    }
  }

  /** Every blob `Kept` returns comes from the list. */
  lemma {:induction false} KeptFromList(bs: seq<Blob>, vs: seq<BlobView>, now: real)
    requires |bs| == |vs|
    ensures forall x :: x in Kept(bs, vs, now) ==> x in bs
  {
    if bs != [] {
      var n := |bs|;
      var p, vp := bs[..n - 1], vs[..n - 1];
      KeptFromList(p, vp, now);
      forall x | x in Kept(bs, vs, now) ensures x in bs {
        if x in Kept(p, vp, now) {
          var i :| 0 <= i < n - 1 && p[i] == x;
          assert bs[i] == x;
        }
      }
    }
  }

  /** A blob stays in its column's list exactly when it did not finish on this pass. */
  lemma {:induction false} KeptMembers(bs: seq<Blob>, vs: seq<BlobView>, now: real)
    requires |bs| == |vs| && Distinct(bs)
    ensures forall i :: 0 <= i < |bs| ==> (bs[i] in Kept(bs, vs, now) <==> !Gone(vs[i], now))
    ensures forall x :: x in Kept(bs, vs, now) ==> x in bs
    ensures Distinct(Kept(bs, vs, now))
  {
    KeptFromList(bs, vs, now);
    if bs != [] {
      var n := |bs|;
      var p, vp := bs[..n - 1], vs[..n - 1];
      KeptMembers(p, vp, now);
      var kp := Kept(p, vp, now);
      var last := if Gone(vs[n - 1], now) then [] else [bs[n - 1]];
      assert Kept(bs, vs, now) == kp + last;
      forall x | x in kp ensures x != bs[n - 1] {
        var i :| 0 <= i < n - 1 && p[i] == x;
        assert bs[i] == x;
      }
      assert Distinct(kp + last) by {
        forall a, b | 0 <= a < b < |kp + last| ensures (kp + last)[a] != (kp + last)[b] {
          assert (kp + last)[a] == kp[a];
          if b < |kp| {
            assert (kp + last)[b] == kp[b];
          } else {
            assert (kp + last)[b] == bs[n - 1] && kp[a] in kp;
          }
        }
      }
      forall i | 0 <= i < n
        ensures bs[i] in kp + last <==> !Gone(vs[i], now)
      {
        if i < n - 1 {
          assert p[i] == bs[i] && vp[i] == vs[i];
        }
      }
    }
  }

  /** A blob's turn writes only cells of its own column. */
  lemma TurnStaysInColumn(cells: map<Pos, Cell>, vs: seq<BlobView>, k: nat, column: int, now: real, maxY: nat, maxX: nat)
    requires k < |vs| && vs[k].column == column
    ensures forall p: Pos :: p.1 != column ==> At(Turn(cells, vs, k, column, now, maxY, maxX), p) == At(cells, p)
  {
    TrailTouchesTwoRows(Erased(cells, vs, k, column, maxY, maxX), vs[k], maxY, maxX);
  }

  /** A column's pass writes only cells of that column. */
  lemma {:induction false} PassStaysInColumn(cells: map<Pos, Cell>, vs: seq<BlobView>, column: int, now: real, maxY: nat, maxX: nat, k: nat)
    requires k <= |vs|
    requires forall i :: 0 <= i < |vs| ==> vs[i].column == column
    ensures forall p: Pos :: p.1 != column ==> At(PassCells(cells, vs, column, now, maxY, maxX, k), p) == At(cells, p)
  {
    if k > 0 {
      PassStaysInColumn(cells, vs, column, now, maxY, maxX, k - 1);
      TurnStaysInColumn(PassCells(cells, vs, column, now, maxY, maxX, k - 1), vs, k - 1, column, now, maxY, maxX);
    }
  }

  /** `REFRESH_INTERVAL`: the animator's tick, in seconds; a blob may not be faster. */
  const RefreshInterval: real := 0.01

  /** The speed range the reporter starts the animator with, `BLOB_SPEED`, passes the assert of `__init__`. */
  lemma BlobSpeedAccepted()
    ensures RefreshInterval <= SpeedMin < SpeedMax
  {
  }

  /** A list with one more element at the end: its lowest head is the smaller of the two. */
  lemma LowestAppend(vs: seq<BlobView>, v: BlobView, maxY: int)
    ensures Lowest(vs + [v], maxY) == if v.index < Lowest(vs, maxY) then v.index else Lowest(vs, maxY)
  {
    assert (vs + [v])[..|vs|] == vs;
  }

  /** A new blob starts at row 0, so its column's lowest head is row 0 afterwards, unless the column already reached above the top. */
  lemma NewBlobHeight(vm: map<int, seq<BlobView>>, c: int, v: BlobView, maxY: int)
    requires v.index == 0
    ensures var h := Height(vm, c, maxY);
            Height(vm[c := ColumnOf(vm, c) + [v]], c, maxY) == if 0 < h then 0 else h
    ensures forall n :: n != c ==> Height(vm[c := ColumnOf(vm, c) + [v]], n, maxY) == Height(vm, n, maxY)
  {
    LowestAppend(ColumnOf(vm, c), v, maxY);
  }

  /** `ob`, `vm` and `snap` are the lists, views and blob fields at the start of the pass. */
  ghost predicate Snapshot(ob: map<int, seq<Blob>>, vm: map<int, seq<BlobView>>, snap: map<Blob, BlobView>, repr: set<Blob>)
  {
    (forall c :: c in ob ==> c in vm && |vm[c]| == |ob[c]|) &&
    (forall c, k :: c in ob && 0 <= k < |ob[c]| ==> ob[c][k] in snap && snap[ob[c][k]] == vm[c][k]) &&
    (forall c, b :: c in ob && b in ob[c] ==> b in repr && b.column == c)
  }

  /** `done` holds exactly the first `i` columns of `order`. */
  ghost predicate DoneFirst(order: seq<int>, i: nat, done: set<int>)
  {
    (forall j :: 0 <= j < i && j < |order| ==> order[j] in done) &&
    (forall j :: i <= j < |order| ==> order[j] !in done)
  }

  /** The lists `bl` are those of the pass's start, each column of `done` with its finished blobs removed. */
  ghost predicate ListsAfter(bl: map<int, seq<Blob>>, now: real, ob: map<int, seq<Blob>>, vm: map<int, seq<BlobView>>, done: set<int>)
  {
    (forall c :: c in ob ==> c in bl) &&
    forall c :: c in bl ==>
      (c in ob && c in vm && bl[c] == if c in done && |ob[c]| == |vm[c]| then Kept(ob[c], vm[c], now) else ob[c])
  }

  /** The blobs of the columns of `done` have had their turn since `snap`; the others are as they were. */
  ghost predicate BlobsAfter(repr: set<Blob>, now: real, ob: map<int, seq<Blob>>, snap: map<Blob, BlobView>, done: set<int>)
    reads repr
  {
    forall b :: b in snap && b in repr && b.column in ob && b in ob[b.column] ==>
      b.View() == if b.column in done then Step(snap[b], now) else snap[b]
  }

  /**
   * One column's pass, as values: after the turn of column `order[i]`, its
   * list has lost its finished blobs and the screen is that of the first
   * `i + 1` passes.
   */
  lemma ListsStep(order: seq<int>, i: nat, now: real, ob: map<int, seq<Blob>>, vm: map<int, seq<BlobView>>,
                  done: set<int>, bl: map<int, seq<Blob>>, bl': map<int, seq<Blob>>,
                  cells0: map<Pos, Cell>, cells: map<Pos, Cell>, cells': map<Pos, Cell>, maxY: nat, maxX: nat)
    requires i < |order| && forall a, b :: 0 <= a < b < |order| ==> order[a] != order[b]
    requires DoneFirst(order, i, done)
    requires forall c :: c in ob ==> c in vm && |vm[c]| == |ob[c]|
    requires ListsAfter(bl, now, ob, vm, done)
    requires order[i] in bl && order[i] in ob && order[i] in vm && |vm[order[i]]| == |ob[order[i]]| && bl[order[i]] == ob[order[i]]
    requires bl' == bl[order[i] := Kept(ob[order[i]], vm[order[i]], now)]
    requires cells == Passes(cells0, order[..i], vm, now, maxY, maxX)
    requires cells' == ColumnPass(cells, vm[order[i]], order[i], now, maxY, maxX)
    ensures DoneFirst(order, i + 1, done + {order[i]})
    ensures ListsAfter(bl', now, ob, vm, done + {order[i]})
    ensures cells' == Passes(cells0, order[..i + 1], vm, now, maxY, maxX)
  {
    PrefixGrow(order, i);
    var column := order[i];
    assert ColumnOf(vm, column) == vm[column];
    assert Passes(cells0, order[..i + 1], vm, now, maxY, maxX) ==
           ColumnPass(Passes(cells0, order[..i], vm, now, maxY, maxX), vm[column], column, now, maxY, maxX);
    forall c | c in bl'
      ensures c in ob && c in vm &&
              bl'[c] == if c in done + {column} && |ob[c]| == |vm[c]| then Kept(ob[c], vm[c], now) else ob[c]
    {
    }
  }

  /** The dictionary's keys are `order`, without repeats; each blob of `repr` is at most once in the list of its own column. */
  ghost predicate WellFormed(order: seq<int>, blobs: map<int, seq<Blob>>, repr: set<Blob>) {
    (forall c :: c in blobs <==> c in order) &&
    (forall i, j :: 0 <= i < j < |order| ==> order[i] != order[j]) &&
    (forall c :: c in blobs ==> Distinct(blobs[c])) &&
    (forall c, b :: c in blobs && b in blobs[c] ==> b in repr && b.column == c)
  }

  /** `add_nodeid`'s append keeps the dictionary well formed. */
  lemma AppendWellFormed(order: seq<int>, blobs: map<int, seq<Blob>>, repr: set<Blob>, c: int, blob: Blob)
    requires WellFormed(order, blobs, repr) && blob !in repr && blob.column == c
    ensures WellFormed(order + (if c in blobs then [] else [c]), blobs[c := ColumnOf(blobs, c) + [blob]], repr + {blob})
  {
    var order', list := order + (if c in blobs then [] else [c]), ColumnOf(blobs, c);
    assert c !in blobs ==> c !in order;
    assert Distinct(list + [blob]) by {
      assert forall b :: b in list ==> b in repr;
    }
  }

  /** `cols[n]` of `get_random_column`: the lowest head in column `n`, the screen height when it has none. */
  function Height(vm: map<int, seq<BlobView>>, n: int, maxY: int): int {
    Lowest(ColumnOf(vm, n), maxY)
  }

  /** No column's lowest head is further down than column `c`'s: `c` is among `get_random_column`'s best variants. */
  predicate Deepest(vm: map<int, seq<BlobView>>, maxY: int, maxX: int, c: int) {
    forall n :: 0 <= n < maxX ==> Height(vm, n, maxY) <= Height(vm, c, maxY)
  }

  /** Replacing a column's list by a list of some of its blobs, without repeats, keeps the dictionary well formed. */
  lemma ReplaceWellFormed(order: seq<int>, blobs: map<int, seq<Blob>>, repr: set<Blob>, c: int, list: seq<Blob>)
    requires WellFormed(order, blobs, repr) && c in blobs
    requires Distinct(list) && forall x :: x in list ==> x in blobs[c]
    ensures WellFormed(order, blobs[c := list], repr)
  {
  }

  /** Two maps with the same keys and the same value at each key are equal. */
  lemma SameMap(a: map<int, seq<BlobView>>, b: map<int, seq<BlobView>>)
    requires forall d :: d in a ==> d in b && a[d] == b[d]
    requires forall d :: d in b ==> d in a
    ensures a == b
  {
    forall d | d in a ensures d in b { }
    forall d | d in b ensures d in a { }
    assert a.Keys == b.Keys;
    forall d | d in a ensures a[d] == b[d] { }
  }

  class VerboseReporter {
    const screen: Screen
    /** The range `get_speed` draws a new blob's speed from. */
    const speedMin: real
    const speedMax: real
    /** The dictionary's keys in insertion order, the order `items()` visits them. */
    var order: seq<int>
    var blobs: map<int, seq<Blob>>
    /** Every blob ever added. */
    ghost var Repr: set<Blob>

    /** Each blob sits in the list of its own column, once. */
    ghost predicate Valid()
      reads this
    {
      WellFormed(order, blobs, Repr)
    }

    /** Every column's blobs as values. */
    ghost function ViewMap(): map<int, seq<BlobView>>
      requires Valid()
      reads this, Repr
    {
      map c | c in blobs :: Views(blobs[c])
    }

    /** `__init__(stdscr, speed_min, speed_max)`, which asserts that no blob is faster than the tick. */
    constructor (s: Screen, speedMin: real, speedMax: real)
      requires RefreshInterval <= speedMin < speedMax
      ensures screen == s && this.speedMin == speedMin && this.speedMax == speedMax
      ensures order == [] && blobs == map[] && Valid()
    {
      screen := s;
      this.speedMin, this.speedMax := speedMin, speedMax;
      order, blobs := [], map[];
      Repr := {};
    }

    /** A column with blobs that is no longer on the screen: `cols[column]` raises `KeyError`. */
    ghost predicate Stray()
      reads this, screen
    {
      exists c :: c in blobs && blobs[c] != [] && !(0 <= c < screen.maxX)
    }

    /**
     * `get_random_column`: any column whose lowest head is furthest down
     * (`random.choice` among the best), or `None` where the source raises:
     * a stray column (`KeyError`) or a screen without columns (`IndexError`).
     */
    method ChooseColumn() returns (r: Option<int>)
      requires Valid()
      ensures r.None? <==> screen.maxX == 0 || Stray()
      ensures r.Some? ==> 0 <= r.value < screen.maxX
      ensures r.Some? ==> Deepest(ViewMap(), screen.maxY, screen.maxX, r.value)
    {
      ghost var vm := ViewMap();
      var cols := ColumnValues(vm);
      if cols.None? || screen.maxX == 0 {
        return None;
      }
      var best := Highest(cols.value);
      var c :| 0 <= c < screen.maxX && cols.value[c] == best;
      assert Deepest(vm, screen.maxY, screen.maxX, c) by {
        forall n | 0 <= n < screen.maxX
          ensures Height(vm, n, screen.maxY) <= Height(vm, c, screen.maxY)
        {
          assert cols.value[n] <= best;
        }
      }
      assert ViewMap() == vm;
      r := Some(c);
    }

    /**
     * `add_nodeid(nodeid, color)`: a new blob of the label, drawn at once,
     * at the end of the list of the column `get_random_column` picks; the
     * dictionary gains the column if it had none. `speed` and `size` are
     * the draws of `get_speed` and `random.randint(*BLOB_SIZE)`. Nothing
     * changes where `get_random_column` raises.
     */
    method AddNodeid(nodeid: string, color: Color, speed: real, size: int, now: real) returns (column: Option<int>)
      requires Valid()
      requires speedMin <= speed < speedMax && SizeMin <= size <= SizeMax
      modifies this
      ensures Valid()
      ensures column.None? <==> screen.maxX == 0 || old(Stray())
      ensures column.None? ==> blobs == old(blobs) && order == old(order) && Repr == old(Repr)
      ensures column.Some? ==> 0 <= column.value < screen.maxX
      ensures column.Some? ==> Deepest(old(ViewMap()), screen.maxY, screen.maxX, column.value)
      ensures column.Some? ==> order == old(order) + (if column.value in old(blobs) then [] else [column.value])
      ensures column.Some? ==>
                ViewMap() == old(ViewMap())[column.value := ColumnOf(old(ViewMap()), column.value) +
                                                           [BlobView(nodeid, column.value, color, size, speed, 0, now - speed)]]
    {
      column := ChooseColumn();
      if column.None? {
        return;
      }
      var c := column.value;
      var blob := Append(c, nodeid, color, speed, size, now);
    }

    /** `self.blobs[column].append(Blob(...))`: a new blob at the end of column `c`'s list. */
    method Append(c: int, nodeid: string, color: Color, speed: real, size: int, now: real) returns (blob: Blob)
      requires Valid()
      modifies this
      ensures fresh(blob) && blob.View() == BlobView(nodeid, c, color, size, speed, 0, now - speed)
      ensures Valid() && Repr == old(Repr) + {blob}
      ensures order == old(order) + (if c in old(blobs) then [] else [c])
      ensures blobs == old(blobs)[c := ColumnOf(old(blobs), c) + [blob]]
      ensures ViewMap() == old(ViewMap())[c := ColumnOf(old(ViewMap()), c) + [blob.View()]]
    {
      ghost var bl, vm := blobs, ViewMap();
      blob := new Blob(nodeid, c, color, speed, size, now);
      var list := if c in blobs then blobs[c] else [];
      order := order + (if c in blobs then [] else [c]);
      blobs := blobs[c := list + [blob]];
      Repr := Repr + {blob};
      AppendWellFormed(old(order), old(blobs), old(Repr), c, blob);
      forall d | d in bl
        ensures d in vm && Views(bl[d]) == vm[d]
      {
      }
      ViewMapAppend(c, blob, bl, vm);
    }

    /** With `blob` appended to column `c` of lists `bl` whose views are `vm`, the view map gains the blob's view. */
    lemma ViewMapAppend(c: int, blob: Blob, bl: map<int, seq<Blob>>, vm: map<int, seq<BlobView>>)
      requires Valid() && blobs == bl[c := ColumnOf(bl, c) + [blob]]
      requires forall d :: d in bl ==> d in vm && Views(bl[d]) == vm[d]
      requires forall d :: d in vm ==> d in bl
      ensures ViewMap() == vm[c := ColumnOf(vm, c) + [blob.View()]]
    {
      var vm' := ViewMap();
      var target := vm[c := ColumnOf(vm, c) + [blob.View()]];
      var list := ColumnOf(bl, c);
      forall d | d in target
        ensures d in vm' && vm'[d] == target[d]
      {
        if d == c {
          var bs := blobs[d];
          assert bs[..|list|] == list;
        }
      }
      SameMap(vm', target);
    }

    /** The first loop of `get_random_column`: every column's value, or `None` at the `KeyError` of a stray column. */
    method ColumnValues(ghost vm: map<int, seq<BlobView>>) returns (cols: Option<seq<int>>)
      requires Valid() && vm == ViewMap()
      ensures cols.None? <==> Stray()
      ensures cols.Some? ==> |cols.value| == screen.maxX
      ensures cols.Some? ==> forall n :: 0 <= n < screen.maxX ==> cols.value[n] == Height(vm, n, screen.maxY)
    {
      var maxY: int := screen.maxY;
      var maxX := screen.maxX;
      var values := Filled(maxY, maxX);
      var i := 0;
      while i < |order|
        invariant 0 <= i <= |order| && |values| == maxX
        invariant forall c :: c in order[..i] ==> blobs[c] == [] || 0 <= c < screen.maxX
        invariant forall n :: 0 <= n < maxX ==> values[n] == if n in order[..i] then Lowest(ColumnOf(vm, n), maxY) else maxY
      {
        var column := order[i];
        var bs := blobs[column];
        if bs != [] && !(0 <= column < maxX) {
          assert column in blobs;
          return None;
        }
        PrefixGrow(order, i);
        if bs != [] {
          values := LowerColumn(values, column, bs);
        }
        i := i + 1;
      }
      assert order[..i] == order;
      forall c | c in blobs
        ensures blobs[c] == [] || 0 <= c < screen.maxX
      {
        assert c in order[..i];
      }
      cols := Some(values);
    }

    /** The blob is in the list of its own column. */
    ghost predicate Listed(b: Blob)
      reads this
    {
      b.column in blobs && b in blobs[b.column]
    }

    /** `draw(current_time)`: one pass over every column, in the dictionary's order. */
    method Draw(now: real)
      requires Valid()
      modifies this, screen, Repr
      ensures Valid() && Repr == old(Repr) && order == old(order)
      ensures screen.maxY == old(screen.maxY) && screen.maxX == old(screen.maxX)
      ensures forall c :: c in blobs <==> c in old(blobs)
      ensures forall c :: c in blobs ==> blobs[c] == Kept(old(blobs)[c], old(ViewMap())[c], now)
      ensures screen.cells == Passes(old(screen.cells), order, old(ViewMap()), now, screen.maxY, screen.maxX)
      ensures forall b :: b in Repr && old(Listed(b)) ==> b.View() == Step(old(b.View()), now)
    {
      ghost var ob := blobs;
      ghost var vm := ViewMap();
      ghost var snap := map b | b in Repr :: b.View();
      ghost var cells0 := screen.cells;
      ghost var done: set<int> := {};
      ProgressStart(now, ob, vm, snap, cells0);
      var i := 0;
      while i < |order|
        invariant 0 <= i <= |order|
        invariant Repr == old(Repr) && order == old(order)
        invariant screen.maxY == old(screen.maxY) && screen.maxX == old(screen.maxX)
        invariant Progress(i, now, ob, vm, snap, cells0, done)
      {
        done := PassNext(i, now, ob, vm, snap, cells0, done);
        i := i + 1;
      }
      ProgressEnd(now, ob, vm, snap, cells0, done);
    }

    /** Before the first column, nothing has changed. */
    lemma ProgressStart(now: real, ob: map<int, seq<Blob>>, vm: map<int, seq<BlobView>>,
                        snap: map<Blob, BlobView>, cells0: map<Pos, Cell>)
      requires Valid() && ob == blobs && vm == ViewMap() && cells0 == screen.cells
      requires snap == map b | b in Repr :: b.View()
      ensures Progress(0, now, ob, vm, snap, cells0, {})
    {
      forall c, k | c in ob && 0 <= k < |ob[c]|
        ensures ob[c][k] in snap && snap[ob[c][k]] == vm[c][k]
      {
        assert ob[c][k] in ob[c];
      }
    }

    /** After the last column, every list and every blob has had its pass. */
    lemma ProgressEnd(now: real, ob: map<int, seq<Blob>>, vm: map<int, seq<BlobView>>,
                      snap: map<Blob, BlobView>, cells0: map<Pos, Cell>, done: set<int>)
      requires Progress(|order|, now, ob, vm, snap, cells0, done)
      ensures forall c :: c in blobs <==> c in ob
      ensures forall c :: c in blobs ==> c in ob && c in vm && blobs[c] == Kept(ob[c], vm[c], now)
      ensures screen.cells == Passes(cells0, order, vm, now, screen.maxY, screen.maxX)
      ensures forall b :: b in snap && b in Repr && b.column in ob && b in ob[b.column] ==> b.View() == Step(snap[b], now)
    {
      assert order[..|order|] == order;
      forall c | c in blobs
        ensures c in done
      {
        var j :| 0 <= j < |order| && order[j] == c;
      }
    }

    /** The state of `draw` after the first `i` columns of `order`, collected in `done`. */
    ghost predicate Progress(i: nat, now: real, ob: map<int, seq<Blob>>, vm: map<int, seq<BlobView>>,
                             snap: map<Blob, BlobView>, cells0: map<Pos, Cell>, done: set<int>)
      reads this, screen, Repr
    {
      i <= |order| && Valid() && Snapshot(ob, vm, snap, Repr) && DoneFirst(order, i, done) &&
      ListsAfter(blobs, now, ob, vm, done) &&
      screen.cells == Passes(cells0, order[..i], vm, now, screen.maxY, screen.maxX) &&
      BlobsAfter(Repr, now, ob, snap, done)
    }

    /** One more column of `draw`. */
    method PassNext(i: nat, now: real, ghost ob: map<int, seq<Blob>>, ghost vm: map<int, seq<BlobView>>,
                    ghost snap: map<Blob, BlobView>, ghost cells0: map<Pos, Cell>, ghost done: set<int>)
      returns (ghost done': set<int>)
      requires i < |order| && Progress(i, now, ob, vm, snap, cells0, done)
      modifies this, screen, Repr
      ensures Repr == old(Repr) && order == old(order)
      ensures screen.maxY == old(screen.maxY) && screen.maxX == old(screen.maxX)
      ensures Progress(i + 1, now, ob, vm, snap, cells0, done')
    {
      var column := order[i];
      ColumnAtStart(i, now, ob, vm, snap, done);
      ghost var bl, cells := blobs, screen.cells;
      var deleteList := TurnColumn(column, now, ob, snap, done);
      RemoveFinished(column, vm[column], deleteList, now);
      ListsStep(order, i, now, ob, vm, done, bl, blobs, cells0, cells, screen.cells, screen.maxY, screen.maxX);
      done' := done + {column};
    }

    /** Before its turn, the list of column `order[i]` is still as it was at the start of the pass. */
    lemma ColumnAtStart(i: nat, now: real, ob: map<int, seq<Blob>>, vm: map<int, seq<BlobView>>,
                        snap: map<Blob, BlobView>, done: set<int>)
      requires i < |order| && Valid() && Snapshot(ob, vm, snap, Repr) && DoneFirst(order, i, done)
      requires ListsAfter(blobs, now, ob, vm, done) && BlobsAfter(Repr, now, ob, snap, done)
      ensures order[i] in blobs && order[i] in ob && order[i] in vm && blobs[order[i]] == ob[order[i]]
      ensures Views(blobs[order[i]]) == vm[order[i]]
    {
      var column := order[i];
      assert column in blobs;
      forall k | 0 <= k < |ob[column]|
        ensures ob[column][k].View() == vm[column][k]
      {
        assert ob[column][k] in ob[column];
      }
    }

    /** The `for blob in delete_list: blobs[column].remove(blob)` loop: the column keeps the blobs that did not finish. */
    method RemoveFinished(column: int, ghost vs: seq<BlobView>, deleteList: seq<Blob>, now: real)
      requires Valid() && column in blobs && |vs| == |blobs[column]|
      requires deleteList == Dropped(blobs[column], vs, now)
      modifies this
      ensures Valid() && Repr == old(Repr) && order == old(order)
      ensures blobs == old(blobs)[column := Kept(old(blobs[column]), vs, now)]
    {
      var bs := blobs[column];
      assert Distinct(deleteList) && (forall x :: x in deleteList ==> x in bs) &&
             Filter(bs, Elems(deleteList)) == Kept(bs, vs, now) by {
        DroppedThenKept(bs, vs, now);
      }
      var kept := RemoveAll(bs, deleteList);
      assert WellFormed(order, blobs[column := kept], Repr) by {
        KeptMembers(bs, vs, now);
        ReplaceWellFormed(order, blobs, Repr, column, kept);
      }
      blobs := blobs[column := kept];
    }

    /** Every blob of one column takes its turn; the blobs of the other columns are left as they were. */
    method TurnColumn(column: int, now: real, ghost ob: map<int, seq<Blob>>, ghost snap: map<Blob, BlobView>,
                      ghost done: set<int>) returns (deleteList: seq<Blob>)
      requires Valid() && column in blobs
      requires column in ob && blobs[column] == ob[column] && column !in done && BlobsAfter(Repr, now, ob, snap, done)
      modifies screen, blobs[column]
      ensures screen.maxY == old(screen.maxY) && screen.maxX == old(screen.maxX)
      ensures screen.cells == ColumnPass(old(screen.cells), old(Views(blobs[column])), column, now, screen.maxY, screen.maxX)
      ensures deleteList == Dropped(blobs[column], old(Views(blobs[column])), now)
      ensures BlobsAfter(Repr, now, ob, snap, done + {column})
    {
      var bs := blobs[column];
      deleteList := TakeTurns(bs, column, now);
      forall b | b in snap && b in Repr && b.column in ob && b in ob[b.column]
        ensures b.View() == if b.column in done + {column} then Step(snap[b], now) else snap[b]
      {
        if b.column != column {
          assert b !in bs;
          assert b.View() == old(b.View());
        } else {
          assert b in bs;
          assert b.View() == Step(old(b.View()), now);
        }
      }
    }

    /** The `for blob, next_blob in zip(...)` loop of `draw`: each blob's turn, oldest first; the result is the `delete_list`. */
    method TakeTurns(bs: seq<Blob>, column: int, now: real) returns (deleteList: seq<Blob>)
      requires Distinct(bs)
      requires forall i :: 0 <= i < |bs| ==> bs[i].column == column
      modifies screen, bs
      ensures screen.maxY == old(screen.maxY) && screen.maxX == old(screen.maxX)
      ensures screen.cells == ColumnPass(old(screen.cells), old(Views(bs)), column, now, screen.maxY, screen.maxX)
      ensures forall b :: b in bs ==> b.View() == Step(old(b.View()), now)
      ensures deleteList == Dropped(bs, old(Views(bs)), now)
    {
      ghost var vs, cells0 := Views(bs), screen.cells;
      ghost var maxY, maxX := screen.maxY, screen.maxX;
      deleteList := [];
      var k := 0;
      while k < |bs|
        invariant 0 <= k <= |bs|
        invariant screen.maxY == maxY && screen.maxX == maxX
        invariant screen.cells == PassCells(cells0, vs, column, now, maxY, maxX, k)
        invariant forall i :: 0 <= i < |bs| ==> bs[i].View() == if i < k then Step(vs[i], now) else vs[i]
        invariant deleteList == Dropped(bs[..k], vs[..k], now)
      {
        assert k + 1 < |bs| ==> bs[k + 1].index == vs[k + 1].index;
        ghost var next := Turn(screen.cells, vs, k, column, now, maxY, maxX);
        assert next == PassCells(cells0, vs, column, now, maxY, maxX, k + 1);
        label before:
        var gone := TakeTurn(bs, k, column, now, vs);
        assert screen.cells == next;
        forall i | 0 <= i < |bs| ensures bs[i].View() == if i <= k then Step(vs[i], now) else vs[i] {
          if i != k {
            assert bs[i].View() == old@before(bs[i].View());
          }
        }
        assert deleteList + (if gone then [bs[k]] else []) == Dropped(bs[..k + 1], vs[..k + 1], now) by {
          DroppedGrow(bs, vs, k, now);
        }
        deleteList := deleteList + (if gone then [bs[k]] else []);
        k := k + 1;
        assert deleteList == Dropped(bs[..k], vs[..k], now);
      }
      assert bs[..k] == bs && vs[..k] == vs;
      forall b | b in bs
        ensures b.View() == Step(old(b.View()), now)
      {
        var i :| 0 <= i < |bs| && bs[i] == b;
        assert old(b.View()) == vs[i];
      }
    }

    /** One blob's turn: erase above it, draw it if due; `gone` when `draw` reported it finished. */
    method TakeTurn(bs: seq<Blob>, k: nat, column: int, now: real, ghost vs: seq<BlobView>) returns (gone: bool)
      requires k < |bs| == |vs| && Distinct(bs)
      requires bs[k].View() == vs[k] && bs[k].column == column
      requires k + 1 < |bs| ==> bs[k + 1].index == vs[k + 1].index
      modifies screen, bs[k]
      ensures screen.maxY == old(screen.maxY) && screen.maxX == old(screen.maxX)
      ensures screen.cells == Turn(old(screen.cells), vs, k, column, now, screen.maxY, screen.maxX)
      ensures bs[k].View() == Step(vs[k], now)
      ensures forall i :: 0 <= i < |bs| && i != k ==> bs[i].View() == old(bs[i].View())
      ensures gone <==> Gone(vs[k], now)
    {
      var blob := bs[k];
      var topLimit := if k + 1 < |bs| then bs[k + 1].index else -1;
      var eraseTop := blob.index - blob.size;
      if eraseTop > topLimit && CanWrite(eraseTop, column, screen.maxY, screen.maxX) {
        screen.AddStr(eraseTop, column, Blank);
      }
      gone := false;
      if blob.CanDraw(now) {
        gone := blob.Draw(screen, now);
      }
    }
  }

  /** The inner loop of `get_random_column` for one column: `cols[column] = min(cols[column], blob.index)` per blob. */
  method LowerColumn(cols: seq<int>, column: int, bs: seq<Blob>) returns (cols': seq<int>)
    requires 0 <= column < |cols|
    ensures |cols'| == |cols|
    ensures cols'[column] == Lowest(Views(bs), cols[column])
    ensures forall n :: 0 <= n < |cols| && n != column ==> cols'[n] == cols[n]
  {
    ghost var vs := Views(bs);
    cols' := cols;
    var j := 0;
    while j < |bs|
      invariant 0 <= j <= |bs| && |cols'| == |cols|
      invariant cols'[column] == Lowest(vs[..j], cols[column])
      invariant forall n :: 0 <= n < |cols| && n != column ==> cols'[n] == cols[n]
    {
      cols' := cols'[column := if bs[j].index < cols'[column] then bs[j].index else cols'[column]];
      assert vs[..j + 1][..j] == vs[..j];
      j := j + 1;
    }
    assert vs[..j] == vs;
  }

  /** Growing a prefix of a list without repeats by one adds exactly the next element, which was not there yet. */
  lemma PrefixGrow(s: seq<int>, i: nat)
    requires i < |s|
    requires forall a, b :: 0 <= a < b < |s| ==> s[a] != s[b]
    ensures s[i] !in s[..i]
    ensures forall c :: c in s[..i + 1] <==> c in s[..i] || c == s[i]
    ensures s[..i + 1][..i] == s[..i] && s[..i + 1][i] == s[i]
  {
    assert s[..i + 1] == s[..i] + [s[i]];
  }

  /** `{n: value for n in range(count)}`, as a list. */
  function Filled(value: int, count: nat): (r: seq<int>)
    ensures |r| == count && forall n :: 0 <= n < count ==> r[n] == value
  {
    if count == 0 then [] else Filled(value, count - 1) + [value]
  }

  /** The largest key of `variants`: the greatest of the column values. */
  method Highest(cols: seq<int>) returns (best: int)
    requires |cols| > 0
    ensures exists m :: 0 <= m < |cols| && cols[m] == best
    ensures forall m :: 0 <= m < |cols| ==> cols[m] <= best
  {
    var at := 0;
    var n := 1;
    while n < |cols|
      invariant 1 <= n <= |cols| && 0 <= at < n
      invariant forall m :: 0 <= m < n ==> cols[m] <= cols[at]
    {
      if cols[n] > cols[at] {
        at := n;
      }
      n := n + 1;
    }
    best := cols[at];
  }

  /** `for blob in delete_list: blobs.remove(blob)`. */
  method RemoveAll(bs: seq<Blob>, deleteList: seq<Blob>) returns (kept: seq<Blob>)
    requires Distinct(bs) && Distinct(deleteList)
    requires forall x :: x in deleteList ==> x in bs
    ensures kept == Filter(bs, Elems(deleteList))
  {
    kept := bs;
    FilterKeepsAll(bs, Elems(deleteList[..0]));
    var j := 0;
    while j < |deleteList|
      invariant 0 <= j <= |deleteList|
      invariant kept == Filter(bs, Elems(deleteList[..j]))
    {
      var x := deleteList[j];
      assert x in kept && Distinct(kept) by {
        FilterMembers(bs, Elems(deleteList[..j]));
        assert x !in deleteList[..j];
      }
      assert RemoveFirst(kept, x) == Filter(bs, Elems(deleteList[..j + 1])) by {
        RemoveFirstIsFilter(kept, x);
        FilterFilter(bs, Elems(deleteList[..j]), {x});
        ElemsGrow(deleteList, j);
      }
      kept := RemoveFirst(kept, x);
      j := j + 1;
      assert kept == Filter(bs, Elems(deleteList[..j]));
    }
    assert deleteList[..j] == deleteList;
  }
}
