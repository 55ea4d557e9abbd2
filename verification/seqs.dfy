/**
 * Sequence utilities shared by the projection builders: the last element,
 * flattening, and the maximal-run grouping that serves as the reference
 * definition of "consecutive rows with the same key form one group".
 */
module Seqs {

  function Last<T>(s: seq<T>): T
    requires |s| > 0
  {
    s[|s| - 1]
  }

  /** The front and the last element of `a + [x]`. */
  lemma SnocParts<T>(a: seq<T>, x: T)
    ensures (a + [x])[..|a|] == a && Last(a + [x]) == x
  {
  }

  /** Replacing the element after `pre` and the one after it by `h`. */
  lemma SpliceTwo<T>(pre: seq<T>, x: T, rest: seq<T>, h: T)
    requires |rest| > 0
    ensures var s := pre + [x] + rest;
      && s[|pre|] == x && s[|pre| + 1] == rest[0]
      && s[..|pre|] + [h] + s[|pre| + 2..] == pre + [h] + rest[1..]
  {
    var s := pre + [x] + rest;
    assert s[..|pre|] == pre && s[|pre| + 2..] == rest[1..];
  }

  /** The first four elements of four elements consed onto `r`. */
  lemma ConsFour<T>(a: T, b: T, c: T, d: T, r: seq<T>)
    ensures var s := [a] + ([b] + ([c] + ([d] + r)));
      |s| >= 4 && s[..4] == [a, b, c, d]
  {
  }

  /** A non-empty sequence is its front followed by its last element. */
  lemma FrontLast<T>(s: seq<T>)
    requires |s| > 0
    ensures s == s[..|s| - 1] + [Last(s)]
  {
  }

  /** The head and the tail of `[x] + a + b`. */
  lemma ConsTail<T>(x: T, a: seq<T>, b: seq<T>)
    ensures var s := [x] + a + b;
      && |s| > 0 && s[0] == x && s[1..] == a + b
  {
    var s := [x] + a + b;
    assert s == [x] + (a + b);
  }

  lemma AppendAssoc<T>(a: seq<T>, b: seq<T>, c: seq<T>)
    ensures (a + b) + c == a + (b + c)
  {
  }

  /** Concatenation of a sequence of sequences, in order. */
  function Flatten<T>(ss: seq<seq<T>>): (r: seq<T>)
  {
    if |ss| == 0 then [] else Flatten(ss[..|ss| - 1]) + Last(ss)
  }

  lemma {:induction false} FlattenAppend<T>(a: seq<seq<T>>, b: seq<seq<T>>)
    ensures Flatten(a + b) == Flatten(a) + Flatten(b)
    decreases |b|
  {
    if |b| == 0 {
      assert a + b == a;
    } else {
      var b' := b[..|b| - 1];
      assert (a + b)[..|a + b| - 1] == a + b';
      assert Last(a + b) == Last(b);
      FlattenAppend(a, b');
      assert b[..|b| - 1] == b';
    }
  }

  /** Adds `x` to the last run when it has the same key, else opens a run. */
  function SnocRun<T, K(==)>(p: seq<seq<T>>, x: T, key: T -> K): seq<seq<T>>
  {
    if |p| > 0 && |Last(p)| > 0 && key(Last(Last(p))) == key(x) then
      p[..|p| - 1] + [Last(p) + [x]]
    else
      p + [[x]]
  }

  /**
   * The maximal runs of consecutive elements of `xs` that share a key.
   * This is the reference notion of grouping: no run is empty (below),
   * concatenating the runs gives back `xs` (RunsFlatten), all elements of a
   * run share its key and neighbouring runs have different keys
   * (RunsAreMaximal).
   */
  function Runs<T, K(==)>(xs: seq<T>, key: T -> K): (r: seq<seq<T>>)
    ensures forall i :: 0 <= i < |r| ==> |r[i]| > 0
    ensures |r| == 0 <==> |xs| == 0
    ensures |xs| > 0 ==> Last(Last(r)) == Last(xs)
  {
    if |xs| == 0 then [] else SnocRun(Runs(xs[..|xs| - 1], key), Last(xs), key)
  }

  lemma {:induction false} RunsFlatten<T, K>(xs: seq<T>, key: T -> K)
    ensures Flatten(Runs(xs, key)) == xs
    decreases |xs|
  {
    if |xs| > 0 {
      var init := xs[..|xs| - 1];
      var p := Runs(init, key);
      RunsFlatten(init, key);
      var x := Last(xs);
      var r := Runs(xs, key);
      assert xs == init + [x];
      if |p| > 0 && key(Last(Last(p))) == key(x) {
        assert r[..|r| - 1] == p[..|p| - 1];
        assert Flatten(p) == Flatten(p[..|p| - 1]) + Last(p);
      } else {
        assert r[..|r| - 1] == p;
      }
    }
  }

  /** Every run is key-constant and neighbouring runs differ in key. */
  ghost predicate Maximal<T, K>(r: seq<seq<T>>, key: T -> K)
  {
    && (forall i :: 0 <= i < |r| ==> |r[i]| > 0)
    && (forall i, j :: 0 <= i < |r| && 0 <= j < |r[i]| ==> key(r[i][j]) == key(r[i][0]))
    && (forall i :: 0 < i < |r| ==> key(Last(r[i - 1])) != key(r[i][0]))
  }

  /** Extending the last run with an element of its key keeps the runs maximal. */
  lemma SnocRunJoins<T, K>(p: seq<seq<T>>, x: T, key: T -> K)
    requires Maximal(p, key) && |p| > 0 && key(Last(Last(p))) == key(x)
    ensures Maximal(p[..|p| - 1] + [Last(p) + [x]], key)
  {
    var r := p[..|p| - 1] + [Last(p) + [x]];
    forall i, j | 0 <= i < |r| && 0 <= j < |r[i]|
      ensures key(r[i][j]) == key(r[i][0])
    {
      if i < |r| - 1 {
        assert r[i] == p[i];
      } else {
        assert r[i] == p[i] + [x];
        if j < |p[i]| {
          assert r[i][j] == p[i][j];
        }
      }
    }
    forall i | 0 < i < |r|
      ensures key(Last(r[i - 1])) != key(r[i][0])
    {
      assert r[i - 1] == p[i - 1];
      assert r[i][0] == p[i][0];
    }
  }

  /** Opening a run for an element of a new key keeps the runs maximal. */
  lemma SnocRunOpens<T, K>(p: seq<seq<T>>, x: T, key: T -> K)
    requires Maximal(p, key) && (|p| == 0 || key(Last(Last(p))) != key(x))
    ensures Maximal(p + [[x]], key)
  {
    var r := p + [[x]];
    forall i, j | 0 <= i < |r| && 0 <= j < |r[i]|
      ensures key(r[i][j]) == key(r[i][0])
    {
      if i < |p| {
        assert r[i] == p[i];
      }
    }
    forall i | 0 < i < |r|
      ensures key(Last(r[i - 1])) != key(r[i][0])
    {
      assert r[i - 1] == p[i - 1];
      if i < |p| {
        assert r[i] == p[i];
      }
    }
  }

  lemma {:induction false} RunsAreMaximal<T, K>(xs: seq<T>, key: T -> K)
    ensures Maximal(Runs(xs, key), key)
    decreases |xs|
  {
    if |xs| > 0 {
      var p := Runs(xs[..|xs| - 1], key);
      RunsAreMaximal(xs[..|xs| - 1], key);
      var x := Last(xs);
      if |p| > 0 && key(Last(Last(p))) == key(x) {
        SnocRunJoins(p, x, key);
      } else {
        SnocRunOpens(p, x, key);
      }
    }
  }

  /** A non-empty sequence whose elements all share one key is one run. */
  lemma {:induction false} RunsConst<T, K>(xs: seq<T>, key: T -> K)
    requires |xs| > 0
    requires forall j :: 0 <= j < |xs| ==> key(xs[j]) == key(xs[0])
    ensures Runs(xs, key) == [xs]
    decreases |xs|
  {
    var init := xs[..|xs| - 1];
    assert Runs(xs, key) == SnocRun(Runs(init, key), Last(xs), key);
    if |xs| == 1 {
      assert Runs(init, key) == [];
      assert [Last(xs)] == xs;
    } else {
      assert key(init[0]) == key(xs[0]);
      RunsConst(init, key);
      assert key(Last(init)) == key(Last(xs));
      assert init + [Last(xs)] == xs;
    }
  }

  lemma SnocRunAppend<T, K>(ra: seq<seq<T>>, q: seq<seq<T>>, y: T, key: T -> K)
    requires |q| > 0
    ensures SnocRun(ra + q, y, key) == ra + SnocRun(q, y, key)
  {
    var p := ra + q;
    assert Last(p) == Last(q);
    assert p[..|p| - 1] == ra + q[..|q| - 1];
  }

  /** Runs never straddle a key change: they split where the key changes. */
  lemma {:induction false} RunsSplit<T, K>(a: seq<T>, b: seq<T>, key: T -> K)
    requires |a| > 0 && |b| > 0
    requires key(Last(a)) != key(b[0])
    ensures Runs(a + b, key) == Runs(a, key) + Runs(b, key)
    decreases |b|
  {
    var ab := a + b;
    var y := Last(b);
    var b' := b[..|b| - 1];
    assert Last(ab) == y;
    assert ab[..|ab| - 1] == a + b';
    assert Runs(ab, key) == SnocRun(Runs(a + b', key), y, key);
    assert Runs(b, key) == SnocRun(Runs(b', key), y, key);
    if |b| == 1 {
      assert a + b' == a;
      assert Runs(b', key) == [];
      assert y == b[0];
      var ra := Runs(a, key);
      assert Last(Last(ra)) == Last(a);
      assert SnocRun(ra, y, key) == ra + [[y]];
    } else {
      RunsSplit(a, b', key);
      SnocRunAppend(Runs(a, key), Runs(b', key), y, key);
    }
  }
}
