/**
 * Cooperative time slicing of a row-at-a-time fold, as the idle callbacks
 * of python/songdb.py do it: each scheduled call handles at most `doMax`
 * rows, reading `keepalive` before every row, and either asks to be
 * rescheduled, finds the cursor dry, or stops because the worker closed.
 */
module Slicing {
  import opened Seqs

  /** Feeding `xs` to `step` one at a time, in order. */
  function FoldL<S, X>(s: S, xs: seq<X>, step: (S, X) -> S): S
  {
    if |xs| == 0 then s else step(FoldL(s, xs[..|xs| - 1], step), Last(xs))
  }

  /** Carrying the state across a split point changes nothing. */
  lemma {:induction false} FoldLAppend<S, X>(s: S, xs: seq<X>, ys: seq<X>, step: (S, X) -> S)
    ensures FoldL(s, xs + ys, step) == FoldL(FoldL(s, xs, step), ys, step)
    decreases |ys|
  {
    if |ys| == 0 {
      assert xs + ys == xs;
    } else {
      var ys' := ys[..|ys| - 1];
      assert (xs + ys)[..|xs + ys| - 1] == xs + ys';
      FoldLAppend(s, xs, ys', step);
    }
  }

  lemma FoldLCons<S, X>(s: S, x: X, ys: seq<X>, step: (S, X) -> S)
    ensures FoldL(s, [x] + ys, step) == FoldL(step(s, x), ys, step)
  {
    FoldLAppend(s, [x], ys, step);
    assert [x][..0] == [];
  }

  /**
   * How a slice ends: it asks to be rescheduled with the rows still to
   * fetch; or the cursor ran dry (`alive` tells whether one more read of
   * `keepalive` still saw true); or `keepalive` was found false.
   */
  datatype Slice<S, X> =
    | Continue(s: S, rest: seq<X>)
    | Exhausted(s: S, alive: bool)
    | Halted(s: S)

  /**
   * The loop of one slice from iteration `i` on. `liveFor` is how many reads
   * of `keepalive` still see true (closing the worker makes it false for
   * good, so one count describes every interleaving).
   */
  function SliceLoop<S, X>(s: S, cursor: seq<X>, i: nat, doMax: nat, liveFor: nat, step: (S, X) -> S): Slice<S, X>
    requires i <= doMax
    decreases doMax - i
  {
    if i == doMax then Continue(s, cursor)
    else if liveFor == 0 then Halted(s)
    else if |cursor| == 0 then Exhausted(s, liveFor > 1)
    else SliceLoop(step(s, cursor[0]), cursor[1..], i + 1, doMax, liveFor - 1, step)
  }

  /** A loop that runs out of iterations first continues with the fold of what it read. */
  lemma {:induction false} SliceLoopContinues<S, X>(s: S, cursor: seq<X>, i: nat, doMax: nat, liveFor: nat, step: (S, X) -> S)
    requires i <= doMax && doMax - i <= |cursor| && doMax - i <= liveFor
    ensures SliceLoop(s, cursor, i, doMax, liveFor, step)
         == Continue(FoldL(s, cursor[..doMax - i], step), cursor[doMax - i..])
    decreases doMax - i
  {
    var n := doMax - i;
    if i == doMax {
      assert cursor[..0] == [];
      assert cursor[0..] == cursor;
    } else {
      var x := cursor[0];
      var ys := cursor[1..];
      SliceLoopContinues(step(s, x), ys, i + 1, doMax, liveFor - 1, step);
      assert cursor[..n] == [x] + ys[..n - 1];
      FoldLCons(s, x, ys[..n - 1], step);
      assert ys[n - 1..] == cursor[n..];
    }
  }

  /** A loop that finds the cursor dry first ends with the fold of every row. */
  lemma {:induction false} SliceLoopExhausts<S, X>(s: S, cursor: seq<X>, i: nat, doMax: nat, liveFor: nat, step: (S, X) -> S)
    requires i <= doMax && |cursor| < doMax - i && |cursor| < liveFor
    ensures SliceLoop(s, cursor, i, doMax, liveFor, step)
         == Exhausted(FoldL(s, cursor, step), liveFor > |cursor| + 1)
    decreases doMax - i
  {
    if |cursor| > 0 {
      var x := cursor[0];
      var ys := cursor[1..];
      SliceLoopExhausts(step(s, x), ys, i + 1, doMax, liveFor - 1, step);
      assert cursor == [x] + ys;
      FoldLCons(s, x, ys, step);
    }
  }

  /** A loop that finds `keepalive` false first halts with the fold of what it read. */
  lemma {:induction false} SliceLoopHalts<S, X>(s: S, cursor: seq<X>, i: nat, doMax: nat, liveFor: nat, step: (S, X) -> S)
    requires i <= doMax && liveFor < doMax - i && liveFor <= |cursor|
    ensures SliceLoop(s, cursor, i, doMax, liveFor, step) == Halted(FoldL(s, cursor[..liveFor], step))
    decreases doMax - i
  {
    if liveFor == 0 {
      assert cursor[..0] == [];
    } else {
      var x := cursor[0];
      var ys := cursor[1..];
      SliceLoopHalts(step(s, x), ys, i + 1, doMax, liveFor - 1, step);
      assert cursor[..liveFor] == [x] + ys[..liveFor - 1];
      FoldLCons(s, x, ys[..liveFor - 1], step);
    }
  }

  /**
   * One slice of at most `doMax` rows. It continues exactly when `doMax`
   * rows were there and `keepalive` held for all of them, and whatever way
   * it ends, its state is the plain fold of the rows it consumed.
   */
  function RunSlice<S, X>(s: S, cursor: seq<X>, doMax: nat, liveFor: nat, step: (S, X) -> S): (r: Slice<S, X>)
    ensures doMax <= |cursor| && doMax <= liveFor ==>
      r == Continue(FoldL(s, cursor[..doMax], step), cursor[doMax..])
    ensures |cursor| < doMax && |cursor| < liveFor ==>
      r == Exhausted(FoldL(s, cursor, step), liveFor > |cursor| + 1)
    ensures liveFor < doMax && liveFor <= |cursor| ==>
      r == Halted(FoldL(s, cursor[..liveFor], step))
  {
    var r := SliceLoop(s, cursor, 0, doMax, liveFor, step);
    if doMax <= |cursor| && doMax <= liveFor then
      SliceLoopContinues(s, cursor, 0, doMax, liveFor, step); r
    else if |cursor| < doMax && |cursor| < liveFor then
      SliceLoopExhausts(s, cursor, 0, doMax, liveFor, step); r
    else
      SliceLoopHalts(s, cursor, 0, doMax, liveFor, step); r
  }

  /**
   * Rescheduling slices until the cursor runs dry, with `keepalive` true
   * throughout, ends in the same state as one unsliced pass over all rows.
   */
  function RunAllSlices<S, X>(s: S, cursor: seq<X>, doMax: nat, step: (S, X) -> S): (r: S)
    requires doMax >= 1
    ensures r == FoldL(s, cursor, step)
    decreases |cursor|
  {
    match RunSlice(s, cursor, doMax, doMax + 1, step)
    case Continue(s', rest) =>
      FoldLAppend(s, cursor[..doMax], cursor[doMax..], step);
      assert cursor[..doMax] + cursor[doMax..] == cursor;
      RunAllSlices(s', rest, doMax, step)
    case Exhausted(s', _) => s'
    case Halted(s') => s'
  }
}
