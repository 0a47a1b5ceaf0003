# pytest-neo layout engine in Dafny

pytest-neo replaces pytest's terminal reporter with a curses display in the
style of a falling-letter "code rain". Under the curses and multiprocessing
calls sits a small sequential layout engine. This project models that engine
and proves what it does.

- **Screen** (`screen.dfy`): the curses window. It has an extent `(maxY, maxX)`
  that may change between two operations, and a map from positions to cells.
  A write outside the extent is dropped. `can_write` is `Screen.CanWrite`.
- **Status** (`status.dfy`): `pytest_report_teststatus`, the table from a
  report's outcome and phase to its one-letter glyph.
- **Paths** (`paths.dfy`): `prepare_fspath`, which turns a node id or file
  path into the label drawn on screen, and the `split("::")` of a node id.
  Module `PathLemmas` holds its properties.
- **Grid** (`grid.dfy`, `grid_props.dfy`): the low-verbosity cursor as pure
  functions over a `Layout` value. This covers `fix_coordinate`, `addstr`
  with its trail effect, `clear_column`, `write_new_column`,
  `write_fspath_result`, `pytest_runtest_logstart` and the drawing and
  history parts of `pytest_runtest_logreport`. Module `GridProps` proves the
  layout promises about those functions.
- **Reporter** (`reporter.dfy`): `NeoTerminalReporter` as a class whose fields
  are the reporter's own: `top`, `left`, `previous_char`, the column colour,
  the colour cycle, `currentfspath` and `history`. Each method is proved to
  move the state exactly as the matching Grid function says.
- **History** (`history.dfy`): `print_history`, as a sequence of output
  tokens (a coloured letter, or a raw space or newline). It covers the
  sorting, the blocks of `max_x / 2` entries and the row loop.
- **Rain** (`rain.dfy`): the `Blob` class, with `draw` and `can_draw`.
- **Animator** (`animator.dfy`): `VerboseReporter`, covering
  `get_random_column`, `draw` (one tick) and `add_nodeid` over a dictionary
  from columns to lists of blobs.

Time is a parameter `now` (seconds, as a `real`). Random draws are
parameters (a blob's speed and size) or a choice (`:|`) among the candidates.

In these cases the model follows the code as written:
- `fix_coordinate` is not idempotent on a one-row or one-column terminal
  (`Grid.FixNotIdempotentOnOneRow`, `Grid.FixNotIdempotentOnOneColumn`).
- A setup report at an unwritable cursor moves one column right and draws
  the label again (`GridProps.SetupOffGridOpensColumn`). It does not wrap to
  a new column without a label.
- `print_history` on a terminal narrower than two columns never finishes
  (see Findings).

## Model

| member | source | states |
|---|---|---|
| Screen.CanWrite | pytest_neo.py:309-319 | true exactly when the cell is inside the extent and is not the bottom-right cell |
| Screen.Written | pytest_neo.py:350-353 | a one-character write sets exactly that cell, and changes nothing when it falls outside the extent |
| Screen.PaletteCycles | pytest_neo.py:115-119 | `COLOR_CHAIN` hands out bright bold, green, bright, then repeats with period three, and two consecutive colours differ |
| Screen.Screen.AddStr | pytest_neo.py:350-353 | `addstr` of one character: the cells become `Written(...)` of the old cells, and the extent is unchanged |
| Screen.Screen.Resize | pytest_neo.py:211 | the extent read by `getmaxyx` may change between operations, and the drawn cells stay |
| Status.ReportStatus | pytest_neo.py:59-82 | nothing while the plugin is off; otherwise each letter occurs exactly for its outcome and phase (both directions); a skipped `wasxfail` report is exactly `("xfailed", "x", "xfail")` and a passed one exactly `("xpassed", "X", "XPASS")`; any other report's category and word are its outcome and the outcome's upper case; the letter is `Letter` of the report |
| Status.Upper | pytest_neo.py:82 | `str.upper` keeps the length and upper-cases each ASCII letter in place |
| Status.Letter | pytest_neo.py:63-80 | the letter of the triple, drawn at pytest_neo.py:281, is always one of the eight glyphs |
| Paths.SplitSep | pytest_neo.py:191-192 | the head of `split('::', 1)` is never longer than the text |
| Paths.SplitSepSpec | pytest_neo.py:191-192 | with no `::` the whole text comes back alone; otherwise text = head + `::` + tail, and the head holds no `::` |
| Paths.Basename | pytest_neo.py:190 | the basename is never longer than the path |
| Paths.BasenameSpec | pytest_neo.py:190 | the basename is a `/`-free suffix of the path, with a `/` just before it unless it is the whole path |
| Paths.LastDot | pytest_neo.py:193 | the index of the last dot is -1 or inside the text |
| Paths.LastDotSpec | pytest_neo.py:193 | the found index holds a dot, and no dot comes after it |
| Paths.FilePart | pytest_neo.py:252 | `nodeid.split("::")[0]` is a prefix of the node id, and a `::` follows it unless it is the whole id (also at pytest_neo.py:272 and 295) |
| Paths.Stem | pytest_neo.py:193 | `splitext(name)[0]` is a prefix of the name, followed by a `.` unless it is the whole name |
| Paths.StripTest | pytest_neo.py:194-195 | the name loses its first five characters exactly when it starts with `test_`, and is unchanged otherwise |
| Paths.PrepareFspath | pytest_neo.py:188-208 | the label is never longer than the path it comes from |
| Paths.Clean | pytest_neo.py:201-207 | the four replacements keep the length |
| Paths.CleanSpec | pytest_neo.py:201-207 | each character is substituted on its own, in place |
| PathLemmas.BasenameOfLast | pytest_neo.py:190 | for `dir/b` with `b` free of `/`, the basename is `b` |
| PathLemmas.FilePartIdempotent | pytest_neo.py:252 | splitting a file part at `::` again gives the same file part |
| PathLemmas.NoColonNoSep | pytest_neo.py:191 | a name without `:` is not split |
| PathLemmas.NoDotStem | pytest_neo.py:193 | a name without dots keeps its whole text as the stem |
| PathLemmas.StemDropsExtension | pytest_neo.py:193 | `front.ext` loses exactly `.ext` |
| PathLemmas.PrepareFspathSubstitutes | pytest_neo.py:188-208 | the label contains none of `_`, `-`, `[` and `]` |
| PathLemmas.StripsTestPrefixOnce | pytest_neo.py:188-208 | `dir/test_<name>.<ext>` becomes the cleaned `<name>`; a second `test_` survives as `test\|` |
| PathLemmas.CleanedTestPrefix | pytest_neo.py:194-207 | a leading `test_` that was not stripped is drawn as `test\|` |
| PathLemmas.GlyphJoint | pytest_neo.py:197-207 | the replacements neither produce nor remove the `▒` separator |
| PathLemmas.PiecesAvoid | pytest_neo.py:190-195 | the stem and the tail contain no character the path avoids |
| PathLemmas.CleanAroundJoint | pytest_neo.py:196-207 | cleaning `name ▒ tail` leaves exactly one `▒`, at the end of the name, followed by the cleaned tail |
| PathLemmas.JointFollowsFirstSep | pytest_neo.py:188-208 | for a path without `▒`: the label holds `▒` exactly when the basename holds `::`, and what follows it is the cleaned text after the first `::` |
| Grid.Fix | pytest_neo.py:210-219 | with an extent of at least 1x1 the cursor ends inside it; `top` is kept or reset to 0; `left` is kept, advanced by one or reset to 0; a writable cursor stays put |
| Grid.FixIdempotent | pytest_neo.py:210-219 | on a terminal of at least 2x2, fixing twice equals fixing once |
| Grid.FixNotIdempotentOnOneRow | pytest_neo.py:210-219 | on a one-row terminal a second fix moves the cursor again |
| Grid.FixNotIdempotentOnOneColumn | pytest_neo.py:210-219 | on a one-column terminal a second fix moves the cursor again |
| Grid.AddStrSpec | pytest_neo.py:221-229 | after `addstr` the cursor is the fixed one, the letter is recorded there as `previous_char` with its colour, and the cell holds the letter in bold when it is inside the extent |
| Grid.AddStrTrail | pytest_neo.py:221-229 | after `addstr` the old trail cell is back in its colour, and no cell other than the two changes |
| Grid.ClearRowsAt | pytest_neo.py:231-235 | exactly the writable cells of the column are blank, and every other cell is unchanged |
| Grid.DrawLabel | pytest_neo.py:246-249 | drawing no letters changes nothing; otherwise `previous_char` is the label's last letter, one row above the cursor |
| Grid.LabelOfNone | pytest_neo.py:240 | before any file, `currentfspath` is `None`, and `prepare_fspath` leaves its text `"None"` unchanged, so that is the label |
| Grid.NewColumnSpec | pytest_neo.py:238-249 | `write_new_column` takes the next colour of the cycle and keeps the current file; a non-empty label leaves its last letter as `previous_char`, one row above the cursor |
| Grid.FreshColumn | pytest_neo.py:242-249 | an empty label leaves the cursor at row 0 of the same column with the trail as it was; otherwise the label's last letter is `previous_char`, one row above the cursor |
| Grid.WriteFspathResultSpec | pytest_neo.py:251-259 | the current file becomes the file part; the same file changes nothing; a new file takes the next colour of the cycle |
| Grid.LogStartSpec | pytest_neo.py:270-278 | no job exactly at low verbosity, where the current file becomes the node id's file part; otherwise the job carries the next colour of the cycle and only the cycle moves |
| Grid.LogReportSpec | pytest_neo.py:297-306 | verbose mode draws nothing; the current file never changes; the cycle moves exactly for a setup report at an unwritable cursor; teardown only moves `top` down one row; any other report leaves its letter as `previous_char` at the cursor |
| Grid.RecordSpec | pytest_neo.py:293-295 | the file part's history gains the report's letter exactly for call-phase and skipped reports (not teardown); every other key is unchanged, and a key is added only for a recorded letter |
| GridProps.LabelDrawnDown | pytest_neo.py:245-249 | a label that fits is drawn one glyph per row from row 0, all but the last in the column colour and the last bold; the cursor ends one row below; nothing else changes except the old trail cell |
| GridProps.LabelCursor | pytest_neo.py:245-249 | after a label that fits, the cursor is in the same column, one row below the label |
| GridProps.NewColumnDraws | pytest_neo.py:238-249 | `write_new_column` takes the next colour of the cycle and draws the current file's label down the column |
| GridProps.FreshColumnDraws | pytest_neo.py:242-249 | blanking the pair and drawing the label leaves the label in place and the cursor below it |
| GridProps.NewColumnBlanks | pytest_neo.py:238-244 | after `write_new_column`, every writable cell of the second column, and of the first below the label, is blank |
| GridProps.FreshColumnBlanks | pytest_neo.py:242-249 | the same blanking, stated for the pair of columns |
| GridProps.NewFileMovesTwo | pytest_neo.py:251-259 | a new file moves `left` by two (to 0 at the right edge) and draws its label there in the next colour; the current file changes nothing |
| GridProps.SetupCallTeardown | pytest_neo.py:297-306 | at a writable cursor, the setup and call letters go bold into the same cell, teardown draws nothing, and `top` ends exactly one row lower |
| GridProps.SetupOffGridOpensColumn | pytest_neo.py:298-305 | a setup report at an unwritable cursor moves one column right, redraws the label there in the next colour, and puts its letter just below |
| GridProps.SetupOffGridUnfolds | pytest_neo.py:298-305 | that case is a fresh column one to the right followed by one `addstr` |
| GridProps.LetterBelowLabel | pytest_neo.py:245-249 | an `addstr` after a fresh column lands just below the label, and the whole label is then in colour |
| GridProps.HistoryInEventOrder | pytest_neo.py:293-295 | after a run of reports, each file's history is its old letters followed by the letters of its call-phase and skipped reports, in event order |
| Reporter.NeoReporter.constructor | pytest_neo.py:86-96 | the cursor starts at row 0, column -2, with no trail, no file and an empty history |
| Reporter.NeoReporter.FixCoordinate | pytest_neo.py:210-219 | `(top, left)` becomes `Fix` of the old cursor, and nothing else changes |
| Reporter.NeoReporter.AddStr | pytest_neo.py:221-229 | the state moves as `AddStrSpec` says |
| Reporter.NeoReporter.ClearColumn | pytest_neo.py:231-236 | the cells become `ClearRows` of the old cells over every row |
| Reporter.NeoReporter.WriteNewColumn | pytest_neo.py:238-249 | the state moves as `NewColumnSpec` says |
| Reporter.NeoReporter.DrawColumn | pytest_neo.py:242-249 | the canvas becomes `FreshColumn` of the old one, and nothing else changes |
| Reporter.NeoReporter.WriteFspathResult | pytest_neo.py:251-259 | the state moves as `WriteFspathResultSpec` says for the file part |
| Reporter.NeoReporter.OpenFile | pytest_neo.py:253-259 | for a new file part, the state moves as `WriteFspathResultSpec` says |
| Reporter.NeoReporter.LogStart | pytest_neo.py:270-278 | the state and the job are those `LogStartSpec` gives: low verbosity opens the file's column; otherwise the job is the label and the next colour |
| Reporter.NeoReporter.StartFile | pytest_neo.py:271-273 | at low verbosity the state moves as `LogStartSpec` says, with no job |
| Reporter.NeoReporter.LogReport | pytest_neo.py:293-306 | the layout moves as `LogReportSpec` says, and the history as `RecordSpec` says |
| Reporter.NeoReporter.RecordHistory | pytest_neo.py:293-295 | the history moves as `RecordSpec` says, and the drawing state is unchanged |
| Reporter.NeoReporter.DrawReport | pytest_neo.py:297-306 | the layout moves as `LogReportSpec` says, and the history is unchanged |
| Reporter.NeoReporter.ReopenIfOffGrid | pytest_neo.py:298-301 | a setup report at an unwritable cursor reopens the column one to the right (`ReopenColumn`); any other report changes nothing |
| Reporter.NeoReporter.NextColumn | pytest_neo.py:300-301 | one column to the right and `write_new_column`: the state moves as `ReopenColumn` says |
| Reporter.NeoReporter.PrintHistory | pytest_neo.py:145-178 | the history's keys are listed once each, and the output is the sorted entries laid out in blocks of `BlockWidth` |
| History.StrLeTotal | pytest_neo.py:147-150 | string order is total |
| History.StrLeAntisymmetric | pytest_neo.py:147-150 | string order is antisymmetric |
| History.StrLeTransitive | pytest_neo.py:147-150 | string order is transitive |
| History.EntryLeTotalOrder | pytest_neo.py:147-150 | the tuple order of `(name, tests)` is a total order |
| History.Insert | pytest_neo.py:147-150 | insertion adds exactly the one entry |
| History.InsertSorted | pytest_neo.py:147-150 | insertion keeps a list sorted |
| History.Sort | pytest_neo.py:147-150 | `sorted` returns a sorted permutation of the entries |
| History.SortedUnique | pytest_neo.py:147-150 | two sorted lists with the same entries are equal |
| History.SameHead | pytest_neo.py:147-150 | two sorted lists with the same entries start with the same entry |
| History.SortedTail | pytest_neo.py:147-150 | the tail of a sorted list is sorted |
| History.ListingsPermute | pytest_neo.py:149 | two iteration orders of a dictionary are permutations of each other |
| History.LabelledPermutes | pytest_neo.py:147-150 | labelling permuted keys gives permuted entries |
| History.SortedEntriesIndependentOfOrder | pytest_neo.py:147-150 | the sorted entries, and so the whole output, do not depend on the dictionary's iteration order |
| History.RowCells | pytest_neo.py:166-174 | a row without its newline is two tokens per column |
| History.RowShape | pytest_neo.py:166-175 | a row is, per column, its letter in that column's colour of the cycle (restarting every row) or a space, then a space, then a newline |
| History.MaxLenAbove | pytest_neo.py:166-171 | some column reaches row `r` exactly when `r` is below the longest column |
| History.RowHasLetter | pytest_neo.py:166-177 | a row holds a letter exactly when some column reaches that row |
| History.RowsLength | pytest_neo.py:158-178 | `n` rows are `n * (2 * columns + 1)` tokens |
| History.ChunksSpec | pytest_neo.py:151-153 | the blocks are the entries in order, `w` per block; only the last may be shorter, and none is empty |
| History.BlockWidth | pytest_neo.py:146 | at least 1, and `max_x / 2` when `max_x >= 2` |
| History.RenderRow | pytest_neo.py:160-175 | the inner loop writes the row, and `was_entry` holds exactly when some column reaches that row |
| History.PrintBlock | pytest_neo.py:158-178 | the `row_num` loop writes the block: every row with a letter, then one row without |
| History.PrintEntries | pytest_neo.py:151-178 | the outer loop writes every block in order |
| History.ListKeys | pytest_neo.py:149 | `items()` visits every key of the history once |
| History.NarrowTerminalNeverDrains | pytest_neo.py:146-153 | as written, with `max_x < 2` a pass prints one newline and leaves the list unchanged, after any number of passes |
| History.BlockWidthDrains | pytest_neo.py:146-153 | with `BlockWidth`, every pass over a non-empty list removes at least one entry |
| Rain.TrailTouchesTwoRows | pytest_neo.py:342-353 | `draw` touches only rows `index - 1` (colour) and `index` (bold) of its column, and the second only when the first was drawn; it stops at a row past the text or not writable |
| Rain.FinishedFirstAt | pytest_neo.py:354-356 | `draw` first reports the blob finished when the new index reaches length + size (15 for size 5 and length 10) |
| Rain.DueAgainAfter | pytest_neo.py:358-359 | `can_draw` is false right after a draw, and true again exactly once more than `speed` has passed since it |
| Rain.Blob.CanDraw | pytest_neo.py:358-359 | `can_draw` holds exactly when more than `speed` seconds have passed since the last draw |
| Rain.Blob.constructor | pytest_neo.py:324-332 | a new blob starts at index 0 with its last draw `speed` seconds ago |
| Rain.Blob.Draw | pytest_neo.py:342-356 | the screen becomes the trail cells, the index goes up by exactly one, the draw time is `now`, and the result is `index - size >= length` |
| Animator.DroppedThenKept | pytest_neo.py:405-418 | the `delete_list` has no repeats and only blobs of the list, and removing it leaves exactly the kept blobs |
| Animator.RemoveFirstIsFilter | pytest_neo.py:417-418 | on a list without repeats, `list.remove(x)` is the list without `x` |
| Animator.KeptFromList | pytest_neo.py:417-418 | every kept blob comes from the list |
| Animator.KeptMembers | pytest_neo.py:413-418 | a blob stays exactly when its `draw` did not report it finished, and the kept list has no repeats |
| Animator.TurnStaysInColumn | pytest_neo.py:408-416 | a blob's turn writes only cells of its own column |
| Animator.PassStaysInColumn | pytest_neo.py:407-416 | a column's pass writes only cells of that column |
| Animator.LowestAppend | pytest_neo.py:391-393 | appending a blob takes the column's value to the smaller of the two |
| Animator.NewBlobHeight | pytest_neo.py:425-435 | after `add_nodeid`, the chosen column's value is 0 (unless already above the top), and the other columns keep theirs |
| Animator.ListsStep | pytest_neo.py:405-418 | one more column done: the lists and the screen are those after that column's pass |
| Animator.AppendWellFormed | pytest_neo.py:427-435 | appending a new blob to its own column keeps every blob in its own column's list, once |
| Animator.ReplaceWellFormed | pytest_neo.py:417-418 | replacing a list by some of its blobs, without repeats, keeps that |
| Animator.LowerColumn | pytest_neo.py:392-393 | the inner loop sets this column's value to the lowest head, capped at the old value, and leaves the others alone |
| Animator.Filled | pytest_neo.py:390 | every column starts at `max_y` |
| Animator.Highest | pytest_neo.py:394-400 | the best variant's key is the greatest column value |
| Animator.RemoveFirst | pytest_neo.py:418 | `list.remove(x)` takes exactly one `x` out of the list and keeps every other element |
| Animator.BlobSpeedAccepted | pytest_neo.py:29 | `BLOB_SPEED`, the range `__init__` is called with at pytest_neo.py:121, meets its `REFRESH_INTERVAL <= speed_min < speed_max` assert |
| Animator.RemoveAll | pytest_neo.py:417-418 | removing every blob of the `delete_list` leaves the list without them, in order |
| Animator.VerboseReporter.constructor | pytest_neo.py:365-371 | needs `REFRESH_INTERVAL <= speed_min < speed_max`, and starts with an empty dictionary |
| Animator.VerboseReporter.ChooseColumn | pytest_neo.py:388-401 | `None` exactly when there are no columns or a column with blobs is off the screen; otherwise a column on screen whose lowest head is furthest down |
| Animator.VerboseReporter.ColumnValues | pytest_neo.py:389-393 | every on-screen column's value is its lowest head capped at `max_y`, or `None` at a column with blobs off the screen |
| Animator.VerboseReporter.AddNodeid | pytest_neo.py:425-435 | the new blob goes at the end of the chosen, furthest-down column's list, starting at index 0; the dictionary gains the column if it had none; nothing changes where the choice fails |
| Animator.VerboseReporter.Append | pytest_neo.py:427-435 | the new blob is appended to column `c`'s list, and the dictionary gains the column if it had none |
| Animator.VerboseReporter.ViewMapAppend | pytest_neo.py:427-435 | the blob values after the append are the old ones with the new blob at the end of its column |
| Animator.VerboseReporter.Draw | pytest_neo.py:403-419 | one tick: every column passes in dictionary order; each list keeps exactly its blobs that did not finish, in order; each blob takes its step; the screen is the columns' passes in order |
| Animator.VerboseReporter.ProgressEnd | pytest_neo.py:405-418 | after the last column, every list and every blob has had its pass |
| Animator.VerboseReporter.PassNext | pytest_neo.py:405-418 | one more column of the `items()` loop keeps the pass's invariant |
| Animator.VerboseReporter.TurnColumn | pytest_neo.py:407-416 | each blob of one column takes its turn; the blobs of other columns are untouched |
| Animator.VerboseReporter.RemoveFinished | pytest_neo.py:417-418 | the column keeps exactly the blobs that did not finish |
| Animator.VerboseReporter.TakeTurns | pytest_neo.py:407-416 | the `zip` loop: the screen is the column's pass, each blob takes its step, and the `delete_list` is the finished blobs in order |
| Animator.VerboseReporter.TakeTurn | pytest_neo.py:408-416 | one blob: blank row `index - size` when it is greater than the next blob's index (-1 for the last) and writable, then draw if due; the other blobs are untouched; `gone` exactly when `draw` reported it finished |

## Left out

- curses itself: initialisation, colour pairs, `refresh`, `endwin` and `getmaxyx` are not modelled. The window is the `Screen` class, whose extent may change between operations (`Resize`) but not within one.
- Out-of-range writes are dropped. In curses some of them raise an error: the redraw of `previous_char` after a shrink, and the write of the bottom-right cell. The model does not follow those exceptions.
- Colour attributes are the `Color` and `Style` values. The colour cycle of `COLOR_CHAIN` is `Palette` of a counter. The ANSI strings of `print_history` are `Colored` tokens.
- `VerboseReporter.run`, the process, the queue, the stop event and the join are not modelled. Only one `draw` tick and one `add_nodeid` are modelled, and `LogStart` returns the job that would be queued.
- Time: both clock reads of one tick are the same `now`, that is `current_time` in `draw` and `time.time()` inside `Blob.draw`. A blob's creation time is the `now` passed to `add_nodeid`.
- `get_speed` and `random.randint` are parameters of `AddNodeid`, limited to the ranges they draw from. The formula of `get_speed` is not modelled. `random.choice` is an arbitrary choice among the best columns.
- Animator.VerboseReporter.AddNodeid: where `get_random_column` raises, the model returns `None` and leaves the state unchanged. In the source the exception ends the animator's process, and the model does not capture that no later tick happens.
- Animator.VerboseReporter.constructor: the `assert` on the speed range is a precondition rather than an `AssertionError`.
- Dictionary order is the `order` field, the keys in insertion order.
- The `stats` bookkeeping, `_tests_ran`, and the early return on an empty letter and word in `pytest_runtest_logreport` are not modelled. The letter is never empty.
- Plugin glue is not part of this model: `pytest_addoption`, `pytest_configure`, the global switch (a parameter of `ReportStatus`), `tearup`, `teardown`, `summary_errors`, `_report_keyboardinterrupt` and `pytest_internalerror`.
- `config.rootdir.join` is not modelled. The current file is the node id's file part. This gives the same basename, and so the same label, for any file part whose last component is not empty.
- `os.path.basename` and `os.path.splitext` are modelled on POSIX paths only: the text after the last `/`, and the text before the last `.` unless only dots precede it.
- Strings are sequences of code points. `str.upper` is modelled on ASCII letters only.
- `setup.py` (packaging) is not part of this model.

## Findings

| source | as written | input that shows it | evidently intended | confidence | as-written member | corrected member |
|---|---|---|---|---|---|---|
| pytest_neo.py:146-153 | `part_count = int(max_x / 2)` is 0 on a terminal narrower than two columns, so `history[:0]` is empty, `history[0:]` is the whole list, and `while history` prints a newline forever | `max_x = 1` at teardown with one recorded file | every block takes at least one entry, so the loop ends | not executed | History.NarrowTerminalNeverDrains | History.BlockWidthDrains |

`Reporter.NeoReporter.PrintHistory` uses the corrected `History.BlockWidth`.
