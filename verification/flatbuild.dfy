/**
 * The search result list of the flat page (FlatPage._update_1 and
 * _update_2 in python/songdb.py): fetched rows become numbered list rows,
 * at most 100 per scheduled call, and the list is shown with a "(n)"
 * column title once the cursor runs dry, provided a row was found.
 */
module FlatBuild {
  import opened Options
  import opened Seqs
  import opened Text
  import opened Media
  import opened Slicing

  /**
   * One row of the list store: the running `found` number, then artist,
   * album, track, title, duration, bitrate, filename, path and disk.
   */
  datatype Item = Item(
    index: nat, artist: string, album: string, track: int, title: string,
    length: int, bitrate: int, filename: string, path: string, disk: int)

  /** The list row for a prepared record, with the path transform applied to the path only. */
  function ItemOf(index: nat, row: Row, transform: string -> string): Item
  {
    Item(index, row.artist, row.album, row.track, row.title, row.length,
         row.bitrate, row.filename, transform(row.path), row.disk)
  }

  /** The list store and the `found` count carried from one call to the next. */
  datatype Listing = Listing(items: seq<Item>, found: nat)

  /** `_update_1`: the cleared store with `found` reset to 0. */
  const Cleared: Listing := Listing([], 0)

  /**
   * What the cursor will yield: these rows, then either the end (None)
   * or, when `fails` holds, a database error raised by the next fetch.
   */
  datatype Cursor = Cursor(rows: seq<Row>, fails: bool)

  // ---------------------------------------------------------------------
  // One row

  /**
   * The loop body for a fetched row: `found` goes up by one; for Ampache
   * the file column is split at its last '/', and a file without '/' is
   * skipped, as the `except ... continue` intends (see FillAsWritten
   * for what the code does instead).
   */
  function AddRow(l: Listing, row: Row, transform: string -> string, ampache: bool): (r: Listing)
    ensures r.found == l.found + 1
    ensures Prepare(row, ampache).None? ==> r.items == l.items
    ensures Prepare(row, ampache).Some? ==>
      r.items == l.items + [ItemOf(l.found + 1, Prepare(row, ampache).value, transform)]
  {
    var found := l.found + 1;
    match Prepare(row, ampache)
    case None => Listing(l.items, found)
    case Some(p) => Listing(l.items + [ItemOf(found, p, transform)], found)
  }

  function StepOf(transform: string -> string, ampache: bool): (Listing, Row) -> Listing
  {
    (l: Listing, row: Row) => AddRow(l, row, transform, ampache)
  }

  /** The list after feeding `rows` one at a time. */
  function Fill(l: Listing, rows: seq<Row>, transform: string -> string, ampache: bool): Listing
  {
    FoldL(l, rows, StepOf(transform, ampache))
  }

  /** What the split makes of each fetched row, in fetch order. */
  function PreparedAll(rows: seq<Row>, ampache: bool): (r: seq<Option<Row>>)
    ensures |r| == |rows|
    ensures forall i :: 0 <= i < |rows| ==> r[i] == Prepare(rows[i], ampache)
  {
    if |rows| == 0 then [] else PreparedAll(rows[..|rows| - 1], ampache) + [Prepare(Last(rows), ampache)]
  }

  /**
   * `items` lists the rows `acc` in order, each numbered with the 1-based
   * position in `srcs` of the prepared record it came from, so the numbers
   * strictly increase.
   */
  ghost predicate Numbering(items: seq<Item>, srcs: seq<Option<Row>>, acc: seq<Row>, transform: string -> string)
  {
    && |items| == |acc|
    && (forall j :: 0 <= j < |acc| ==> items[j] == ItemOf(items[j].index, acc[j], transform))
    && (forall j :: 0 <= j < |acc| ==> 1 <= items[j].index <= |srcs| && srcs[items[j].index - 1] == Some(acc[j]))
    && (forall j :: 0 < j < |acc| ==> items[j - 1].index < items[j].index)
  }

  lemma NumberingSkip(items: seq<Item>, srcs: seq<Option<Row>>, acc: seq<Row>, transform: string -> string)
    requires Numbering(items, srcs, acc, transform)
    ensures Numbering(items, srcs + [None], acc, transform)
  {
    forall j | 0 <= j < |acc|
      ensures (srcs + [None])[items[j].index - 1] == srcs[items[j].index - 1]
    {
    }
  }

  lemma NumberingTake(items: seq<Item>, srcs: seq<Option<Row>>, acc: seq<Row>, p: Row, transform: string -> string)
    requires Numbering(items, srcs, acc, transform)
    ensures Numbering(items + [ItemOf(|srcs| + 1, p, transform)], srcs + [Some(p)], acc + [p], transform)
  {
    var items' := items + [ItemOf(|srcs| + 1, p, transform)];
    var srcs' := srcs + [Some(p)];
    var acc' := acc + [p];
    forall j | 0 <= j < |acc'|
      ensures items'[j] == ItemOf(items'[j].index, acc'[j], transform)
      ensures 1 <= items'[j].index <= |srcs'| && srcs'[items'[j].index - 1] == Some(acc'[j])
    {
      if j < |acc| {
        assert items'[j] == items[j] && acc'[j] == acc[j];
        assert srcs'[items[j].index - 1] == srcs[items[j].index - 1];
      }
    }
    forall j | 0 < j < |acc'|
      ensures items'[j - 1].index < items'[j].index
    {
      assert items'[j - 1] == items[j - 1];
      if j < |acc| {
        assert items'[j] == items[j];
      }
    }
  }

  /**
   * Starting from the cleared store, `found` counts every fetched row and
   * the list holds the accepted rows in fetch order, each numbered with its
   * 1-based position among the fetched rows.
   */
  lemma {:induction false} FillNumbersRows(rows: seq<Row>, transform: string -> string, ampache: bool)
    ensures var l := Fill(Cleared, rows, transform, ampache);
      && l.found == |rows|
      && Numbering(l.items, PreparedAll(rows, ampache), Accepted(rows, ampache), transform)
    decreases |rows|
  {
    if |rows| > 0 {
      var init := rows[..|rows| - 1];
      FillNumbersRows(init, transform, ampache);
      var l0 := Fill(Cleared, init, transform, ampache);
      var acc0 := Accepted(init, ampache);
      var srcs0 := PreparedAll(init, ampache);
      var l := Fill(Cleared, rows, transform, ampache);
      assert l == AddRow(l0, Last(rows), transform, ampache);
      assert PreparedAll(rows, ampache) == srcs0 + [Prepare(Last(rows), ampache)];
      match Prepare(Last(rows), ampache)
      case None =>
        assert Accepted(rows, ampache) == acc0;
        assert l.items == l0.items;
        NumberingSkip(l0.items, srcs0, acc0, transform);
      case Some(p) =>
        assert Accepted(rows, ampache) == acc0 + [p];
        assert l.items == l0.items + [ItemOf(|srcs0| + 1, p, transform)];
        NumberingTake(l0.items, srcs0, acc0, p, transform);
    }
  }

  /**
   * Without the Ampache split every fetched row is listed: the list rows
   * carry the numbers 1..n in fetch order and the rows' own columns, with
   * only the path transformed.
   */
  lemma {:induction false} FillPlainNumbersOneToN(rows: seq<Row>, transform: string -> string)
    ensures var l := Fill(Cleared, rows, transform, false);
      && l.found == |rows| && |l.items| == |rows|
      && forall j :: 0 <= j < |rows| ==> l.items[j] == ItemOf(j + 1, rows[j], transform)
  {
    FillNumbersRows(rows, transform, false);
    NumberingDense(Fill(Cleared, rows, transform, false).items, PreparedAll(rows, false), rows, transform);
  }

  /** A numbering of as many rows as there are records is the numbering 1..n. */
  lemma {:induction false} NumberingDense(items: seq<Item>, srcs: seq<Option<Row>>, rows: seq<Row>, transform: string -> string)
    requires |srcs| == |rows|
    requires Numbering(items, srcs, rows, transform)
    ensures forall j :: 0 <= j < |rows| ==> items[j] == ItemOf(j + 1, rows[j], transform)
  {
    forall j | 0 <= j < |rows| ensures items[j] == ItemOf(j + 1, rows[j], transform) {
      IndicesAreDense(items, |rows|, j);
    }
  }

  /** Strictly increasing numbers between 1 and n on n rows are exactly 1..n. */
  lemma {:induction false} IndicesAreDense(items: seq<Item>, n: nat, j: nat)
    requires |items| == n && j < n
    requires forall i :: 0 <= i < n ==> 1 <= items[i].index <= n
    requires forall i :: 0 < i < n ==> items[i - 1].index < items[i].index
    ensures items[j].index == j + 1
  {
    LowerBound(items, n, j);
    UpperBound(items, n, j);
  }

  lemma {:induction false} LowerBound(items: seq<Item>, n: nat, j: nat)
    requires |items| == n && j < n
    requires forall i :: 0 <= i < n ==> 1 <= items[i].index <= n
    requires forall i :: 0 < i < n ==> items[i - 1].index < items[i].index
    ensures items[j].index >= j + 1
    decreases j
  {
    if j > 0 {
      LowerBound(items, n, j - 1);
    }
  }

  lemma {:induction false} UpperBound(items: seq<Item>, n: nat, j: nat)
    requires |items| == n && j < n
    requires forall i :: 0 <= i < n ==> 1 <= items[i].index <= n
    requires forall i :: 0 < i < n ==> items[i - 1].index < items[i].index
    ensures items[j].index <= j + 1
    decreases n - j
  {
    if j < n - 1 {
      UpperBound(items, n, j + 1);
    }
  }

  // ---------------------------------------------------------------------
  // Slices

  /** Rows per scheduled call of `_update_2`. */
  const SliceRows: nat := 100

  /**
   * How a call ends: rescheduled with the rest of the cursor; finished with
   * the store shown under the title `(n)` (None when nothing was found, in
   * which case the store stays unshown); or dropped without showing
   * anything (killed, `keepalive` false, or a fetch error).
   */
  datatype Outcome =
    | More(l: Listing, rest: Cursor)
    | Done(l: Listing, title: Option<string>)
    | Dropped(l: Listing)

  /** The column title set on completion: `"(%s)" % found`, only when a row was found. */
  function Title(found: nat): (r: Option<string>)
    ensures r.Some? <==> found >= 1
    ensures r.Some? ==> r.value == "(" + NatToString(found) + ")"
  {
    if found >= 1 then Some("(" + NatToString(found) + ")") else None
  }

  /**
   * One scheduled call of `_update_2`. A killed call changes nothing. Else
   * at most 100 rows are consumed; the call continues exactly when 100 rows
   * were there and `keepalive` held for all of them, and the store is the
   * plain fill of the rows consumed.
   */
  function FlatSlice(l: Listing, c: Cursor, kill: bool, liveFor: nat, transform: string -> string, ampache: bool): (r: Outcome)
    ensures kill ==> r == Dropped(l)
    ensures !kill && SliceRows <= |c.rows| && SliceRows <= liveFor ==>
      r == More(Fill(l, c.rows[..SliceRows], transform, ampache), Cursor(c.rows[SliceRows..], c.fails))
    ensures !kill && |c.rows| < SliceRows && |c.rows| < liveFor ==>
      var l' := Fill(l, c.rows, transform, ampache);
      r == (if c.fails then Dropped(l') else Done(l', Title(l'.found)))
    ensures !kill && liveFor < SliceRows && liveFor <= |c.rows| ==>
      r == Dropped(Fill(l, c.rows[..liveFor], transform, ampache))
  {
    if kill then Dropped(l)
    else
      match RunSlice(l, c.rows, SliceRows, liveFor, StepOf(transform, ampache))
      case Continue(l', rest) => More(l', Cursor(rest, c.fails))
      case Exhausted(l', _) => if c.fails then Dropped(l') else Done(l', Title(l'.found))
      case Halted(l') => Dropped(l')
  }

  /**
   * `_update_1` and then `_update_2` rescheduled after every call, never
   * killed and with `keepalive` true: the outcome is that of one unsliced
   * pass, shown under "(n)" iff at least one row was fetched.
   */
  function RunFlat(c: Cursor, transform: string -> string, ampache: bool): (r: Outcome)
    ensures var l := Fill(Cleared, c.rows, transform, ampache);
      r == (if c.fails then Dropped(l) else Done(l, Title(|c.rows|)))
  {
    FillNumbersRows(c.rows, transform, ampache);
    RunFrom(Cleared, c, transform, ampache)
  }

  function RunFrom(l: Listing, c: Cursor, transform: string -> string, ampache: bool): (r: Outcome)
    ensures var l' := Fill(l, c.rows, transform, ampache);
      r == (if c.fails then Dropped(l') else Done(l', Title(l'.found)))
    decreases |c.rows|
  {
    match FlatSlice(l, c, false, SliceRows + 1, transform, ampache)
    case More(l', rest) =>
      FoldLAppend(l, c.rows[..SliceRows], c.rows[SliceRows..], StepOf(transform, ampache));
      assert c.rows[..SliceRows] + c.rows[SliceRows..] == c.rows;
      RunFrom(l', rest, transform, ampache)
    case Done(l', t) => Done(l', t)
    case Dropped(l') => Dropped(l')
  }

  // ---------------------------------------------------------------------
  // The Ampache split as written

  /** Some fetched row has a file column without '/'. */
  predicate HasBareFile(rows: seq<Row>)
  {
    exists i :: 0 <= i < |rows| && '/' !in rows[i].filename
  }

  /**
   * The rows fed one at a time as the code runs them: the unpacking of
   * `rsplit("/", 1)` raises ValueError on a file without '/', which the
   * `except IndexError` does not catch, so the callback dies there. The
   * flag tells whether it died; the store is the one at that point. With
   * no such row the store is the corrected fill.
   */
  function FillAsWritten(l: Listing, rows: seq<Row>, transform: string -> string, ampache: bool): (r: (Listing, bool))
    ensures r.1 <==> ampache && HasBareFile(rows)
    ensures !r.1 ==> r.0 == Fill(l, rows, transform, ampache)
    decreases |rows|
  {
    if |rows| == 0 then (l, false)
    else
      var init := rows[..|rows| - 1];
      var x := Last(rows);
      var (l0, died) := FillAsWritten(l, init, transform, ampache);
      assert HasBareFile(rows) <==> HasBareFile(init) || '/' !in x.filename by {
        if HasBareFile(init) {
          var i :| 0 <= i < |init| && '/' !in init[i].filename;
          assert rows[i] == init[i];
        }
        if '/' !in x.filename {
          assert rows[|rows| - 1] == x;
        }
        if HasBareFile(rows) {
          var i :| 0 <= i < |rows| && '/' !in rows[i].filename;
          if i < |init| {
            assert init[i] == rows[i];
          }
        }
      }
      if died then (l0, true)
      else if ampache && '/' !in x.filename then (l0, true)
      else (AddRow(l0, x, transform, ampache), false)
  }

  /**
   * `_update_1` and then `_update_2` as written, never killed and with
   * `keepalive` true: a file without '/' ends the pass with nothing shown.
   */
  function RunFlatAsWritten(c: Cursor, transform: string -> string, ampache: bool): (r: Outcome)
    ensures ampache && HasBareFile(c.rows) ==> r.Dropped?
    ensures !(ampache && HasBareFile(c.rows)) ==> r == RunFlat(c, transform, ampache)
  {
    var (l, died) := FillAsWritten(Cleared, c.rows, transform, ampache);
    if died then Dropped(l) else RunFlat(c, transform, ampache)
  }

  /**
   * One Ampache row whose file column is "song.mp3": as written the list is
   * never shown; with the row skipped, as the `continue` intends, the pass
   * finishes and shows the (empty) list under "(1)".
   */
  lemma BareFileHidesList(transform: string -> string)
    ensures var c := Cursor([Row("a", "b", 1, "t", 60, 128, "song.mp3", "", 0)], false);
      && RunFlatAsWritten(c, transform, true).Dropped?
      && RunFlat(c, transform, true) == Done(Listing([], 1), Some("(1)"))
  {
    var row := Row("a", "b", 1, "t", 60, 128, "song.mp3", "", 0);
    var c := Cursor([row], false);
    assert '/' !in row.filename;
    assert c.rows[0] == row;
    assert Prepare(row, true).None?;
    assert [row][..0] == [];
    assert FoldL(Cleared, [row][..0], StepOf(transform, true)) == Cleared;
    assert AddRow(Cleared, row, transform, true) == Listing([], 1);
    assert Fill(Cleared, c.rows, transform, true) == Listing([], 1);
    assert DigitChar(1) == '1';
    assert NatToString(1) == "1";
    assert "(" + "1" + ")" == "(1)";
  }
}
