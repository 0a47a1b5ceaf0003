/**
 * `NeoTerminalReporter.print_history`: after the run, every file's label
 * and its letters are printed as vertical columns, sorted, in blocks of
 * `max_x // 2` columns. The output is a sequence of tokens: a letter in one
 * of the three palette colours, or a raw space or newline.
 */
module History {
  import opened Screen
  import opened Paths

  /** One `(prepare_fspath(name), tests)` pair of the sorted list. */
  datatype Entry = Entry(name: string, tests: seq<char>)

  /** What `self._tw.write` receives: a coloured letter, or a bare `' '` or `'\n'`. */
  datatype Token = Colored(ch: char, color: Color) | Raw(ch: char)

  // ---------------------------------------------------------------------
  // The order `sorted` uses

  /** Python's `<=` on strings (and on lists of one-letter strings): lexicographic by code point. */
  predicate StrLe(a: string, b: string)
    decreases |a|
  {
    a == [] || (b != [] && (a[0] < b[0] || (a[0] == b[0] && StrLe(a[1..], b[1..]))))
  }

  /** Python's `<=` on `(name, tests)` tuples: by name, then by letters. */
  predicate EntryLe(x: Entry, y: Entry) {
    (StrLe(x.name, y.name) && x.name != y.name) || (x.name == y.name && StrLe(x.tests, y.tests))
  }

  lemma {:induction false} StrLeTotal(a: string, b: string)
    ensures StrLe(a, b) || StrLe(b, a)
    decreases |a|
  {
    if a != [] && b != [] && a[0] == b[0] {
      StrLeTotal(a[1..], b[1..]);
    }
  }

  lemma {:induction false} StrLeAntisymmetric(a: string, b: string)
    requires StrLe(a, b) && StrLe(b, a)
    ensures a == b
    decreases |a|
  {
    if a != [] {
      StrLeAntisymmetric(a[1..], b[1..]);
      assert a == [a[0]] + a[1..] && b == [b[0]] + b[1..];
    }
  }

  lemma {:induction false} StrLeTransitive(a: string, b: string, c: string)
    requires StrLe(a, b) && StrLe(b, c)
    ensures StrLe(a, c)
    decreases |a|
  {
    if a != [] && a[0] == b[0] && b[0] == c[0] {
      StrLeTransitive(a[1..], b[1..], c[1..]);
    }
  }

  /** The tuple order is a total order. */
  lemma EntryLeTotalOrder(x: Entry, y: Entry, z: Entry)
    ensures EntryLe(x, y) || EntryLe(y, x)
    ensures EntryLe(x, y) && EntryLe(y, x) ==> x == y
    ensures EntryLe(x, y) && EntryLe(y, z) ==> EntryLe(x, z)
  {
    StrLeTotal(x.name, y.name);
    StrLeTotal(x.tests, y.tests);
    if StrLe(x.name, y.name) && StrLe(y.name, x.name) {
      StrLeAntisymmetric(x.name, y.name);
    }
    if StrLe(x.tests, y.tests) && StrLe(y.tests, x.tests) {
      StrLeAntisymmetric(x.tests, y.tests);
    }
    if EntryLe(x, y) && EntryLe(y, z) {
      if StrLe(x.name, y.name) && StrLe(y.name, z.name) {
        StrLeTransitive(x.name, y.name, z.name);
        if x.name == z.name {
          StrLeAntisymmetric(x.name, y.name);
        }
      }
      if x.name == y.name && y.name == z.name {
        StrLeTransitive(x.tests, y.tests, z.tests);
      }
    }
  }

  // ---------------------------------------------------------------------
  // `sorted`

  predicate Sorted(s: seq<Entry>) {
    forall i, j :: 0 <= i < j < |s| ==> EntryLe(s[i], s[j])
  }

  /** Insertion into a list: the same entries plus `x`. */
  function Insert(x: Entry, s: seq<Entry>): (r: seq<Entry>)
    ensures multiset(r) == multiset(s) + multiset{x}
  {
    if s == [] then [x]
    else if EntryLe(x, s[0]) then [x] + s
    else
      assert s == [s[0]] + s[1..];
      [s[0]] + Insert(x, s[1..])
  }

  /** Insertion keeps a sorted list sorted. */
  lemma {:induction false} InsertSorted(x: Entry, s: seq<Entry>)
    requires Sorted(s)
    ensures Sorted(Insert(x, s))
  {
    if s == [] {
    } else if EntryLe(x, s[0]) {
      var r := [x] + s;
      forall i, j | 0 <= i < j < |r| ensures EntryLe(r[i], r[j]) {
        if i == 0 && j > 1 {
          EntryLeTotalOrder(x, s[0], s[j - 1]);
        }
      }
    } else {
      InsertSorted(x, s[1..]);
      var t := Insert(x, s[1..]);
      forall j | 0 <= j < |t| ensures EntryLe(s[0], t[j]) {
        assert t[j] in multiset(t);
        if t[j] == x {
          EntryLeTotalOrder(x, s[0], s[0]);
        } else {
          assert t[j] in multiset(s[1..]);
          var k :| 1 <= k < |s| && s[k] == t[j];
        }
      }
    }
  }

  /** `sorted(...)`, as an insertion sort: the same entries, in non-decreasing order. */
  function Sort(s: seq<Entry>): (r: seq<Entry>)
    ensures Sorted(r)
    ensures multiset(r) == multiset(s)
  {
    if s == [] then []
    else
      InsertSorted(s[0], Sort(s[1..]));
      assert s == [s[0]] + s[1..];
      Insert(s[0], Sort(s[1..]))
  }

  /** A sorted list is fixed by its contents: there is only one way to sort a collection of entries. */
  lemma {:induction false} SortedUnique(a: seq<Entry>, b: seq<Entry>)
    requires Sorted(a) && Sorted(b) && multiset(a) == multiset(b)
    ensures a == b
    decreases |a|
  {
    if a != [] {
      SameHead(a, b);
      assert a == [a[0]] + a[1..] && b == [b[0]] + b[1..];
      assert multiset(a) == multiset{a[0]} + multiset(a[1..]);
      assert multiset(b) == multiset{b[0]} + multiset(b[1..]);
      forall v ensures multiset(a[1..])[v] == multiset(b[1..])[v] {
        assert multiset(a)[v] == multiset{a[0]}[v] + multiset(a[1..])[v];
        assert multiset(b)[v] == multiset{b[0]}[v] + multiset(b[1..])[v];
      }
      SortedTail(a);
      SortedTail(b);
      SortedUnique(a[1..], b[1..]);
    }
  }

  /** Two sorted lists with the same contents start with the same entry, their least one. */
  lemma SameHead(a: seq<Entry>, b: seq<Entry>)
    requires a != [] && Sorted(a) && Sorted(b) && multiset(a) == multiset(b)
    ensures b != [] && a[0] == b[0]
  {
    assert a[0] in multiset(b);
    assert b[0] in multiset(a);
    var i :| 0 <= i < |a| && a[i] == b[0];
    var j :| 0 <= j < |b| && b[j] == a[0];
    assert EntryLe(a[0], b[0]) by {
      if i > 0 { assert EntryLe(a[0], a[i]); }
      else { EntryLeTotalOrder(a[0], a[0], a[0]); }
    }
    assert EntryLe(b[0], a[0]) by {
      if j > 0 { assert EntryLe(b[0], b[j]); }
      else { EntryLeTotalOrder(b[0], b[0], b[0]); }
    }
    EntryLeTotalOrder(a[0], b[0], b[0]);
  }

  lemma SortedTail(a: seq<Entry>)
    requires a != [] && Sorted(a)
    ensures Sorted(a[1..])
  {
    forall i, j | 0 <= i < j < |a| - 1 ensures EntryLe(a[1..][i], a[1..][j]) {
      assert a[1..][i] == a[i + 1] && a[1..][j] == a[j + 1];
    }
  }

  // ---------------------------------------------------------------------
  // From the history dictionary to the entries

  /** `ks` lists every key of `h` once: one possible iteration order of the dictionary. */
  ghost predicate Listing(h: map<string, seq<char>>, ks: seq<string>) {
    (forall i, j :: 0 <= i < j < |ks| ==> ks[i] != ks[j]) && (forall k :: k in h <==> k in ks)
  }

  /** The generator `(prepare_fspath(name), tests) for name, tests in history.items()`, in the order `ks`. */
  function Labelled(h: map<string, seq<char>>, ks: seq<string>): seq<Entry>
    requires forall k :: k in ks ==> k in h
  {
    seq(|ks|, i requires 0 <= i < |ks| => Entry(PrepareFspath(ks[i]), h[ks[i]]))
  }

  /** Two listings of the same dictionary hold the same keys. */
  lemma {:induction false} ListingsPermute(h: map<string, seq<char>>, ks: seq<string>, ls: seq<string>)
    requires Listing(h, ks) && Listing(h, ls)
    ensures multiset(ks) == multiset(ls)
  {
    forall k ensures multiset(ks)[k] == multiset(ls)[k] {
      DistinctCount(ks, k);
      DistinctCount(ls, k);
    }
  }

  lemma {:induction false} DistinctCount(ks: seq<string>, k: string)
    requires forall i, j :: 0 <= i < j < |ks| ==> ks[i] != ks[j]
    ensures multiset(ks)[k] == if k in ks then 1 else 0
  {
    if ks != [] {
      var init := ks[..|ks| - 1];
      DistinctCount(init, k);
      assert ks == init + [ks[|ks| - 1]];
      assert ks[|ks| - 1] !in init by {
        forall i | 0 <= i < |init| ensures init[i] != ks[|ks| - 1] {
          assert init[i] == ks[i];
        }
      }
    }
  }

  /** Labelling a permutation of the keys gives a permutation of the entries. */
  lemma {:induction false} LabelledPermutes(h: map<string, seq<char>>, ks: seq<string>, ls: seq<string>)
    requires forall k :: k in ks ==> k in h
    requires forall k :: k in ls ==> k in h
    requires multiset(ks) == multiset(ls)
    ensures multiset(Labelled(h, ks)) == multiset(Labelled(h, ls))
    decreases |ks|
  {
    if ks != [] {
      var n := |ks| - 1;
      var k := ks[n];
      assert k in multiset(ls);
      var j :| 0 <= j < |ls| && ls[j] == k;
      var rest := ls[..j] + ls[j + 1..];
      RemoveOne(ks, ls, j);
      LabelledPermutes(h, ks[..n], rest);
      assert ks == ks[..n] + [k];
      LabelledConcat(h, ks[..n], [k]);
      assert ls == ls[..j] + ([k] + ls[j + 1..]);
      LabelledConcat(h, ls[..j], [k] + ls[j + 1..]);
      LabelledConcat(h, [k], ls[j + 1..]);
      LabelledConcat(h, ls[..j], ls[j + 1..]);
      MiddlePermutes(Labelled(h, ks[..n]), Labelled(h, [k]), Labelled(h, ls[..j]), Labelled(h, ls[j + 1..]));
    }
  }

  lemma MiddlePermutes(a: seq<Entry>, e: seq<Entry>, p: seq<Entry>, q: seq<Entry>)
    requires multiset(a) == multiset(p + q)
    ensures multiset(a + e) == multiset(p + (e + q))
  {
    forall v ensures multiset(a + e)[v] == multiset(p + (e + q))[v] {
      assert multiset(p + q)[v] == multiset(p)[v] + multiset(q)[v];
    }
  }

  /** Taking the last key off one list and the same key off the other keeps them permutations of each other. */
  lemma RemoveOne(ks: seq<string>, ls: seq<string>, j: int)
    requires ks != [] && multiset(ks) == multiset(ls) && 0 <= j < |ls| && ls[j] == ks[|ks| - 1]
    ensures multiset(ks[..|ks| - 1]) == multiset(ls[..j] + ls[j + 1..])
  {
    var n := |ks| - 1;
    assert ks == ks[..n] + [ks[n]];
    assert ls == ls[..j] + [ls[j]] + ls[j + 1..];
    forall v ensures multiset(ks[..n])[v] == multiset(ls[..j] + ls[j + 1..])[v] {
      assert multiset(ks)[v] == multiset(ks[..n])[v] + multiset([ks[n]])[v];
      assert multiset(ls)[v] == multiset(ls[..j])[v] + multiset([ls[j]])[v] + multiset(ls[j + 1..])[v];
    }
  }

  lemma LabelledConcat(h: map<string, seq<char>>, a: seq<string>, b: seq<string>)
    requires forall k :: k in a + b ==> k in h
    ensures forall k :: k in a ==> k in h
    ensures forall k :: k in b ==> k in h
    ensures Labelled(h, a + b) == Labelled(h, a) + Labelled(h, b)
  {
    assert forall k :: k in a ==> k in a + b;
    assert forall k :: k in b ==> k in a + b;
    var l := Labelled(h, a + b);
    var r := Labelled(h, a) + Labelled(h, b);
    forall i | 0 <= i < |l| ensures l[i] == r[i] {
      if i < |a| {
        assert (a + b)[i] == a[i];
      } else {
        assert (a + b)[i] == b[i - |a|];
      }
    }
  }

  /**
   * The sorted entries do not depend on the order in which the dictionary
   * is iterated, so neither does anything `print_history` writes.
   */
  lemma SortedEntriesIndependentOfOrder(h: map<string, seq<char>>, ks: seq<string>, ls: seq<string>)
    requires Listing(h, ks) && Listing(h, ls)
    ensures Sort(Labelled(h, ks)) == Sort(Labelled(h, ls))
  {
    ListingsPermute(h, ks, ls);
    LabelledPermutes(h, ks, ls);
    SortedUnique(Sort(Labelled(h, ks)), Sort(Labelled(h, ls)));
  }

  // ---------------------------------------------------------------------
  // The printed layout

  /** `name + ''.join(tests)`: one printed column. */
  function Columns(es: seq<Entry>): seq<string> {
    seq(|es|, i requires 0 <= i < |es| => es[i].name + es[i].tests)
  }

  /** What column `i` shows in row `r`: its letter in the `i`-th colour of the cycle, or a space. */
  function CellToken(col: string, i: nat, r: nat): Token {
    if r < |col| then Colored(col[r], Palette(i)) else Raw(' ')
  }

  /** One row without its newline: for each column, its cell and a separating space. */
  function RowCells(cols: seq<string>, r: nat): (line: seq<Token>)
    ensures |line| == 2 * |cols|
    decreases |cols|
  {
    if cols == [] then []
    else RowCells(cols[..|cols| - 1], r) + [CellToken(cols[|cols| - 1], |cols| - 1, r), Raw(' ')]
  }

  function RowOut(cols: seq<string>, r: nat): seq<Token> {
    RowCells(cols, r) + [Raw('\n')]
  }

  /** The length of the longest column. */
  function MaxLen(cols: seq<string>): nat
    decreases |cols|
  {
    if cols == [] then 0
    else
      var m := MaxLen(cols[..|cols| - 1]);
      if |cols[|cols| - 1]| > m then |cols[|cols| - 1]| else m
  }

  /** Rows `0 .. n - 1` of a block. */
  function Rows(cols: seq<string>, n: nat): seq<Token> {
    if n == 0 then [] else Rows(cols, n - 1) + RowOut(cols, n - 1)
  }

  /** A block: every row that holds a letter, then the first row that holds none. */
  function BlockOut(cols: seq<string>): seq<Token> {
    Rows(cols, MaxLen(cols) + 1)
  }

  function Min(a: nat, b: nat): nat { if a < b then a else b }

  /** `history[:part_count]`, `history[part_count:]`, repeated until nothing is left. */
  function Chunks(es: seq<Entry>, w: nat): seq<seq<Entry>>
    requires w >= 1
    decreases |es|
  {
    if es == [] then [] else [es[..Min(w, |es|)]] + Chunks(es[Min(w, |es|)..], w)
  }

  function Flatten(cs: seq<seq<Entry>>): seq<Entry> {
    if cs == [] then [] else cs[0] + Flatten(cs[1..])
  }

  /** The blocks are the entries in order, `w` per block, only the last one possibly shorter and none empty. */
  lemma {:induction false} ChunksSpec(es: seq<Entry>, w: nat)
    requires w >= 1
    ensures Flatten(Chunks(es, w)) == es
    ensures forall i :: 0 <= i < |Chunks(es, w)| ==> 1 <= |Chunks(es, w)[i]| <= w
    ensures forall i :: 0 <= i < |Chunks(es, w)| - 1 ==> |Chunks(es, w)[i]| == w
    decreases |es|
  {
    if es != [] {
      var n := Min(w, |es|);
      ChunksSpec(es[n..], w);
      assert es == es[..n] + es[n..];
    }
  }

  /** Everything `print_history` writes for the sorted entries `es`, `w` columns per block. */
  function Output(es: seq<Entry>, w: nat): seq<Token>
    requires w >= 1
  {
    Blocks(Chunks(es, w))
  }

  function Blocks(cs: seq<seq<Entry>>): seq<Token> {
    if cs == [] then [] else BlockOut(Columns(cs[0])) + Blocks(cs[1..])
  }

  /** Entries per block: `int(max_x / 2)`, raised to 1 on a terminal narrower than two columns. */
  function BlockWidth(maxX: nat): (w: nat)
    ensures w >= 1
    ensures maxX >= 2 ==> w == maxX / 2
  {
    if maxX / 2 == 0 then 1 else maxX / 2
  }

  // ---------------------------------------------------------------------
  // Properties of the layout

  /**
   * A row is two tokens per column, a cell and a space, and a newline: the
   * cell of column `i` is its `r`-th character in the `i`-th colour of the
   * cycle (which restarts on every row), or a space when the column is
   * shorter.
   */
  lemma {:induction false} RowShape(cols: seq<string>, r: nat)
    ensures |RowOut(cols, r)| == 2 * |cols| + 1
    ensures forall i :: 0 <= i < |cols| ==>
              RowOut(cols, r)[2 * i] == CellToken(cols[i], i, r) && RowOut(cols, r)[2 * i + 1] == Raw(' ')
    ensures RowOut(cols, r)[2 * |cols|] == Raw('\n')
  {
    RowCellsShape(cols, r);
  }

  lemma {:induction false} RowCellsShape(cols: seq<string>, r: nat)
    ensures |RowCells(cols, r)| == 2 * |cols|
    ensures forall i :: 0 <= i < |cols| ==>
              RowCells(cols, r)[2 * i] == CellToken(cols[i], i, r) && RowCells(cols, r)[2 * i + 1] == Raw(' ')
    decreases |cols|
  {
    if cols != [] {
      var init := cols[..|cols| - 1];
      RowCellsShape(init, r);
      forall i | 0 <= i < |init| ensures cols[i] == init[i] { }
    }
  }

  /** A column is longer than `r` somewhere exactly when `r` is below the longest column. */
  lemma {:induction false} MaxLenAbove(cols: seq<string>, r: nat)
    ensures r < MaxLen(cols) <==> exists i :: 0 <= i < |cols| && r < |cols[i]|
    decreases |cols|
  {
    if cols != [] {
      var init := cols[..|cols| - 1];
      MaxLenAbove(init, r);
      if exists i :: 0 <= i < |init| && r < |init[i]| {
        var i :| 0 <= i < |init| && r < |init[i]|;
        assert cols[i] == init[i];
      }
      if exists i :: 0 <= i < |cols| && r < |cols[i]| {
        var i :| 0 <= i < |cols| && r < |cols[i]|;
        if i < |init| { assert init[i] == cols[i]; }
      }
    }
  }

  /** A row shows a letter exactly when some column reaches that far down. */
  lemma RowHasLetter(cols: seq<string>, r: nat)
    ensures (exists t :: 0 <= t < |RowOut(cols, r)| && RowOut(cols, r)[t].Colored?) <==> r < MaxLen(cols)
  {
    RowShape(cols, r);
    MaxLenAbove(cols, r);
    var row := RowOut(cols, r);
    if exists t :: 0 <= t < |row| && row[t].Colored? {
      var t :| 0 <= t < |row| && row[t].Colored?;
      assert row[2 * (t / 2)] == CellToken(cols[t / 2], t / 2, r);
    }
    if r < MaxLen(cols) {
      var i :| 0 <= i < |cols| && r < |cols[i]|;
      assert row[2 * i].Colored?;
    }
  }

  /** A block is `MaxLen + 1` rows of `2 * |cols| + 1` tokens: the longest column and then one letter-free row. */
  lemma {:induction false} RowsLength(cols: seq<string>, n: nat)
    ensures |Rows(cols, n)| == n * (2 * |cols| + 1)
  {
    if n > 0 {
      RowsLength(cols, n - 1);
      var m := 2 * |cols| + 1;
      assert |RowOut(cols, n - 1)| == m;
      assert (n - 1) * m + m == n * m;
    }
  }

  // ---------------------------------------------------------------------
  // The loops of `print_history`

  /** The inner `for column in columns` loop: one row, and whether it held a letter. */
  method RenderRow(cols: seq<string>, r: nat) returns (line: seq<Token>, wasEntry: bool)
    ensures line == RowOut(cols, r)
    ensures wasEntry <==> r < MaxLen(cols)
  {
    line := [];
    wasEntry := false;
    var i := 0;
    while i < |cols|
      invariant 0 <= i <= |cols|
      invariant line == RowCells(cols[..i], r)
      invariant wasEntry <==> r < MaxLen(cols[..i])
    {
      var color := Palette(i);
      if |cols[i]| > r {
        line := line + [Colored(cols[i][r], color)];
        wasEntry := true;
      } else {
        line := line + [Raw(' ')];
      }
      line := line + [Raw(' ')];
      assert cols[..i + 1][..i] == cols[..i];
      i := i + 1;
    }
    assert cols[..i] == cols;
    line := line + [Raw('\n')];
  }

  /** The `while True` loop over `row_num`: rows until the first one without a letter, that one included. */
  method PrintBlock(cols: seq<string>) returns (out: seq<Token>)
    ensures out == BlockOut(cols)
  {
    out := [];
    var row := 0;
    while true
      invariant row <= MaxLen(cols)
      invariant out == Rows(cols, row)
      decreases MaxLen(cols) - row
    {
      var line, wasEntry := RenderRow(cols, row);
      out := out + line;
      if !wasEntry {
        return;
      }
      row := row + 1;
    }
  }

  /** The outer `while history` loop, `w` entries per block. */
  method PrintEntries(es: seq<Entry>, w: nat) returns (out: seq<Token>)
    requires w >= 1
    ensures out == Output(es, w)
  {
    out := [];
    var rest := es;
    while rest != []
      invariant out + Output(rest, w) == Output(es, w)
      decreases |rest|
    {
      var part := rest[..Min(w, |rest|)];
      rest := rest[Min(w, |rest|)..];
      var columns: seq<string> := [];
      for i := 0 to |part|
        invariant columns == Columns(part[..i])
      {
        columns := columns + [part[i].name + part[i].tests];
      }
      assert part[..|part|] == part;
      var block := PrintBlock(columns);
      out := out + block;
    }
  }

  /** `history.items()`: the dictionary's keys, each once, in some order. */
  method ListKeys(h: map<string, seq<char>>) returns (ks: seq<string>)
    ensures Listing(h, ks)
  {
    ks := [];
    var todo := h.Keys;
    while todo != {}
      invariant todo <= h.Keys
      invariant forall i, j :: 0 <= i < j < |ks| ==> ks[i] != ks[j]
      invariant forall k :: k in h <==> k in ks || k in todo
      invariant forall k :: k in ks ==> k !in todo
      decreases |todo|
    {
      var k :| k in todo;
      ks := ks + [k];
      todo := todo - {k};
    }
  }

  // ---------------------------------------------------------------------
  // The loop as written, on a terminal narrower than two columns

  /** One pass of the outer loop with `part_count` taken as written: what it prints and what is left. */
  function PassAsWritten(rest: seq<Entry>, partCount: nat): (seq<Token>, seq<Entry>) {
    var n := Min(partCount, |rest|);
    (BlockOut(Columns(rest[..n])), rest[n..])
  }

  function AfterPasses(rest: seq<Entry>, partCount: nat, k: nat): seq<Entry> {
    if k == 0 then rest else AfterPasses(PassAsWritten(rest, partCount).1, partCount, k - 1)
  }

  /**
   * With `max_x < 2`, `part_count` is 0: every pass prints a lone newline
   * and leaves the list as it was, so no number of passes empties it.
   */
  lemma {:induction false} NarrowTerminalNeverDrains(es: seq<Entry>, maxX: nat, k: nat)
    requires maxX < 2
    ensures PassAsWritten(es, maxX / 2) == ([Raw('\n')], es)
    ensures AfterPasses(es, maxX / 2, k) == es
  {
    assert Columns(es[..0]) == [];
    assert Rows([], 1) == [Raw('\n')];
    assert es[0..] == es;
    if k > 0 {
      NarrowTerminalNeverDrains(es, maxX, k - 1);
    }
  }

  /** With `BlockWidth`, every pass over a non-empty list removes at least one entry. */
  lemma BlockWidthDrains(es: seq<Entry>, maxX: nat)
    requires es != []
    ensures |PassAsWritten(es, BlockWidth(maxX)).1| < |es|
  {
  }
}
