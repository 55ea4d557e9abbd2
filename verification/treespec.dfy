/**
 * The reference shape of the two browse trees, defined by maximal runs
 * rather than by the depth state machines, and the proof that the streamed
 * builder (TreeBuild) produces exactly these trees.
 */
module TreeSpec {
  import opened Seqs
  import opened Media
  import opened Slicing
  import opened TreeBuild

  function ArtistKey(lower: string -> string): Row -> string
  {
    (row: Row) => lower(row.artist)
  }

  function AlbumKey(lower: string -> string): Row -> string
  {
    (row: Row) => lower(row.album)
  }

  function PairKey(lower: string -> string): Row -> (string, string)
  {
    (row: Row) => AlbumKeyOf(row, lower)
  }

  ghost predicate NonEmptyRuns(rs: seq<seq<Row>>)
  {
    forall i :: 0 <= i < |rs| ==> |rs[i]| > 0
  }

  /** One album group per run, named after the run's first row. */
  function AlbumGroups(rs: seq<seq<Row>>, transform: string -> string): (r: seq<Node>)
    requires NonEmptyRuns(rs)
    ensures |r| == |rs|
  {
    if |rs| == 0 then []
    else
      AlbumGroups(rs[..|rs| - 1], transform)
        + [Node(GroupCols(-2, Last(rs)[0].album, ""), Leaves(Last(rs), transform))]
  }

  /** An artist group: its rows split into runs of equal lower-cased album. */
  function ArtistNode(run: seq<Row>, env: Env): Node
    requires |run| > 0
  {
    Node(GroupCols(-1, run[0].artist, ""), AlbumGroups(Runs(run, AlbumKey(env.lower)), env.transform))
  }

  function ArtistNodes(rs: seq<seq<Row>>, env: Env): (r: seq<Node>)
    requires NonEmptyRuns(rs)
    ensures |r| == |rs|
  {
    if |rs| == 0 then [] else ArtistNodes(rs[..|rs| - 1], env) + [ArtistNode(Last(rs), env)]
  }

  /** The artist tree: one artist group per run of equal lower-cased artist. */
  function ArtistForest(rows: seq<Row>, env: Env): seq<Node>
  {
    ArtistNodes(Runs(rows, ArtistKey(env.lower)), env)
  }

  function AlbumRoots(rs: seq<seq<Row>>, env: Env): (r: seq<Node>)
    requires NonEmptyRuns(rs)
    ensures |r| == |rs|
  {
    if |rs| == 0 then [] else AlbumRoots(rs[..|rs| - 1], env) + [AlbumRoot(Last(rs)[0], Leaves(Last(rs), env.transform))]
  }

  /**
   * The album tree before merging: one root, holding one artist child, per
   * run of equal lower-cased (album, artist).
   */
  function AlbumForest(rows: seq<Row>, env: Env): seq<Node>
  {
    AlbumRoots(Runs(rows, PairKey(env.lower)), env)
  }

  lemma LeavesSnoc(rows: seq<Row>, row: Row, transform: string -> string)
    ensures Leaves(rows + [row], transform) == Leaves(rows, transform) + [Leaf(row, transform)]
  {
    assert (rows + [row])[..|rows|] == rows;
  }

  /** The album groups of `front` followed by one more run. */
  lemma AlbumGroupsSnocRun(front: seq<seq<Row>>, run: seq<Row>, transform: string -> string)
    requires NonEmptyRuns(front) && |run| > 0
    ensures NonEmptyRuns(front + [run])
    ensures AlbumGroups(front + [run], transform)
         == AlbumGroups(front, transform) + [Node(GroupCols(-2, run[0].album, ""), Leaves(run, transform))]
  {
    SnocParts(front, run);
    assert forall i :: 0 <= i < |front| ==> (front + [run])[i] == front[i];
  }

  /** Appending to the last of `pre + [n]` leaves `pre` alone. */
  lemma AppendToLastSnoc(pre: seq<Node>, n: Node, leaf: Node)
    ensures AppendToLast(pre + [n], leaf) == pre + [Node(n.cols, n.kids + [leaf])]
  {
    SnocParts(pre, n);
  }

  /** The album groups of runs that grow by one row in the last run. */
  lemma AlbumGroupsExtend(s: seq<seq<Row>>, row: Row, transform: string -> string)
    requires |s| > 0 && NonEmptyRuns(s)
    ensures NonEmptyRuns(s[..|s| - 1] + [Last(s) + [row]])
    ensures AlbumGroups(s[..|s| - 1] + [Last(s) + [row]], transform)
         == AppendToLast(AlbumGroups(s, transform), Leaf(row, transform))
  {
    var front := s[..|s| - 1];
    var run := Last(s);
    var leaf := Leaf(row, transform);
    var n := Node(GroupCols(-2, run[0].album, ""), Leaves(run, transform));
    AlbumGroupsSnocRun(front, run + [row], transform);
    LeavesSnoc(run, row, transform);
    assert (run + [row])[0] == run[0];
    FrontLast(s);
    AlbumGroupsSnocRun(front, run, transform);
    AppendToLastSnoc(AlbumGroups(front, transform), n, leaf);
  }

  /** The album groups of runs that grow by a new one-row run. */
  lemma AlbumGroupsOpen(s: seq<seq<Row>>, row: Row, transform: string -> string)
    requires NonEmptyRuns(s)
    ensures NonEmptyRuns(s + [[row]])
    ensures AlbumGroups(s + [[row]], transform)
         == AlbumGroups(s, transform) + [Node(GroupCols(-2, row.album, ""), [Leaf(row, transform)])]
  {
    var s' := s + [[row]];
    assert s'[..|s'| - 1] == s;
    assert [row][..0] == [];
    assert Leaves([row], transform) == [Leaf(row, transform)];
  }

  /** The runs of `xs + [x]` are the runs of `xs` extended by `x`. */
  lemma RunsSnoc<K>(xs: seq<Row>, x: Row, key: Row -> K)
    requires |xs| > 0
    ensures var s := Runs(xs, key);
            && |s| > 0 && Last(Last(s)) == Last(xs)
            && (key(Last(xs)) == key(x) ==> Runs(xs + [x], key) == s[..|s| - 1] + [Last(s) + [x]])
            && (key(Last(xs)) != key(x) ==> Runs(xs + [x], key) == s + [[x]])
  {
    var ys := xs + [x];
    assert ys[..|ys| - 1] == xs;
  }

  /** Opening the runs of `run + [row]` by album: one more leaf, or one more group. */
  lemma AlbumGroupsSnoc(run: seq<Row>, row: Row, env: Env)
    requires |run| > 0
    ensures var gs := AlbumGroups(Runs(run, AlbumKey(env.lower)), env.transform);
            var gs' := AlbumGroups(Runs(run + [row], AlbumKey(env.lower)), env.transform);
            && |gs| > 0
            && (env.lower(Last(run).album) == env.lower(row.album) ==>
                  gs' == AppendToLast(gs, Leaf(row, env.transform)))
            && (env.lower(Last(run).album) != env.lower(row.album) ==>
                  gs' == gs + [Node(GroupCols(-2, row.album, ""), [Leaf(row, env.transform)])])
  {
    var key := AlbumKey(env.lower);
    RunsSnoc(run, row, key);
    var s := Runs(run, key);
    if env.lower(Last(run).album) == env.lower(row.album) {
      AlbumGroupsExtend(s, row, env.transform);
    } else {
      AlbumGroupsOpen(s, row, env.transform);
    }
  }

  /** Opening the runs of `rows + [row]` by artist, in closed form. */
  lemma ArtistForestSnoc(rows: seq<Row>, row: Row, env: Env)
    requires |rows| > 0
    ensures var f := ArtistForest(rows, env);
            var f' := ArtistForest(rows + [row], env);
            var leaf := Leaf(row, env.transform);
            && |f| > 0 && |Last(f).kids| > 0
            && (env.lower(Last(rows).artist) != env.lower(row.artist) ==>
                  f' == f + [Node(GroupCols(-1, row.artist, ""), [Node(GroupCols(-2, row.album, ""), [leaf])])])
            && (env.lower(Last(rows).artist) == env.lower(row.artist)
                && env.lower(Last(rows).album) != env.lower(row.album) ==>
                  f' == AppendToLast(f, Node(GroupCols(-2, row.album, ""), [leaf])))
            && (env.lower(Last(rows).artist) == env.lower(row.artist)
                && env.lower(Last(rows).album) == env.lower(row.album) ==>
                  f' == AppendToLastLast(f, leaf))
  {
    var key := ArtistKey(env.lower);
    RunsSnoc(rows, row, key);
    var s := Runs(rows, key);
    var f := ArtistForest(rows, env);
    assert f == ArtistNodes(s[..|s| - 1], env) + [ArtistNode(Last(s), env)];
    AlbumGroupsSnoc(Last(s), row, env);
    if env.lower(Last(rows).artist) != env.lower(row.artist) {
      ArtistNodesOpen(s, row, env);
    } else {
      var run := Last(s);
      assert ArtistForest(rows + [row], env) == f[..|f| - 1] + [ArtistNode(run + [row], env)] by {
        ArtistNodesExtend(s, row, env);
        assert f[..|f| - 1] == ArtistNodes(s[..|s| - 1], env);
      }
      ArtistNodeSnoc(run, row, env);
    }
  }

  /** One more row of the same artist keeps the group's heading and re-opens its album runs. */
  lemma ArtistNodeSnoc(run: seq<Row>, row: Row, env: Env)
    requires |run| > 0
    ensures ArtistNode(run + [row], env)
         == Node(ArtistNode(run, env).cols, AlbumGroups(Runs(run + [row], AlbumKey(env.lower)), env.transform))
  {
    assert (run + [row])[0] == run[0];
  }

  lemma ArtistNodesOpen(s: seq<seq<Row>>, row: Row, env: Env)
    requires NonEmptyRuns(s)
    ensures NonEmptyRuns(s + [[row]])
    ensures ArtistNodes(s + [[row]], env)
         == ArtistNodes(s, env)
            + [Node(GroupCols(-1, row.artist, ""), [Node(GroupCols(-2, row.album, ""), [Leaf(row, env.transform)])])]
  {
    var s' := s + [[row]];
    assert s'[..|s'| - 1] == s;
    RunsConst([row], AlbumKey(env.lower));
    AlbumGroupsOpen([], row, env.transform);
    assert [] + [[row]] == [[row]];
    assert AlbumGroups([[row]], env.transform)
        == [Node(GroupCols(-2, row.album, ""), [Leaf(row, env.transform)])];
    assert ArtistNode([row], env)
        == Node(GroupCols(-1, row.artist, ""), [Node(GroupCols(-2, row.album, ""), [Leaf(row, env.transform)])]);
  }

  lemma ArtistNodesExtend(s: seq<seq<Row>>, row: Row, env: Env)
    requires |s| > 0 && NonEmptyRuns(s)
    ensures NonEmptyRuns(s[..|s| - 1] + [Last(s) + [row]])
    ensures ArtistNodes(s[..|s| - 1] + [Last(s) + [row]], env)
         == ArtistNodes(s[..|s| - 1], env) + [ArtistNode(Last(s) + [row], env)]
  {
    var s' := s[..|s| - 1] + [Last(s) + [row]];
    assert s'[..|s'| - 1] == s[..|s| - 1];
  }

  /** Opening the runs of `rows + [row]` by (album, artist), in closed form. */
  lemma AlbumForestSnoc(rows: seq<Row>, row: Row, env: Env)
    requires |rows| > 0
    ensures var f := AlbumForest(rows, env);
            var f' := AlbumForest(rows + [row], env);
            && |f| > 0 && |Last(f).kids| > 0
            && (AlbumKeyOf(Last(rows), env.lower) != AlbumKeyOf(row, env.lower) ==>
                  f' == f + [AlbumRoot(row, [Leaf(row, env.transform)])])
            && (AlbumKeyOf(Last(rows), env.lower) == AlbumKeyOf(row, env.lower) ==>
                  f' == AppendToLastLast(f, Leaf(row, env.transform)))
  {
    var key := PairKey(env.lower);
    var s := Runs(rows, key);
    var xs := rows + [row];
    assert xs[..|xs| - 1] == rows;
    assert Runs(xs, key) == SnocRun(s, row, key);
    assert Last(Last(s)) == Last(rows);
    var f := AlbumRoots(s, env);
    if AlbumKeyOf(Last(rows), env.lower) != AlbumKeyOf(row, env.lower) {
      var s' := s + [[row]];
      assert SnocRun(s, row, key) == s';
      assert s'[..|s'| - 1] == s;
      assert Leaves([row], env.transform) == [Leaf(row, env.transform)];
    } else {
      var s' := s[..|s| - 1] + [Last(s) + [row]];
      assert SnocRun(s, row, key) == s';
      assert s'[..|s'| - 1] == s[..|s| - 1];
      assert (Last(s) + [row])[0] == Last(s)[0];
      LeavesSnoc(Last(s), row, env.transform);
      var first := Last(s)[0];
      var child := Node(GroupCols(-2, first.artist, ""), Leaves(Last(s), env.transform));
      assert Last(f) == Node(GroupCols(-1, first.album, first.artist), [child]);
      assert AppendToLast([child], Leaf(row, env.transform))
          == [Node(child.cols, Leaves(Last(s), env.transform) + [Leaf(row, env.transform)])];
    }
  }

  /** The builder's state after the accepted rows `acc`, as the reference trees. */
  ghost predicate Abstracts(b: Builder, acc: seq<Row>, env: Env)
  {
    && b.byArtist.roots == ArtistForest(acc, env)
    && b.byAlbum.roots == AlbumForest(acc, env)
    && (|acc| == 0 ==> b.byArtist.dep == 0 && b.byAlbum.dep == 0)
    && (|acc| > 0 ==>
          && b.byArtist.dep == 2
          && b.byArtist.artLower == env.lower(Last(acc).artist)
          && b.byArtist.albLower == env.lower(Last(acc).album)
          && b.byAlbum.dep == 1
          && b.byAlbum.key == AlbumKeyOf(Last(acc), env.lower))
  }

  /** Feeding one accepted row to the machines extends the reference trees. */
  lemma InsertAbstracts(b: Builder, acc: seq<Row>, row: Row, env: Env)
    requires Open(b, env) && Abstracts(b, acc, env)
    ensures Abstracts(Builder(ArtistInsert(b.byArtist, row, env), AlbumInsert(b.byAlbum, row, env)), acc + [row], env)
  {
    if |acc| == 0 {
      assert acc + [row] == [row];
      InsertFirstAbstracts(b, row, env);
    } else {
      ArtistForestSnoc(acc, row, env);
      AlbumForestSnoc(acc, row, env);
      assert Last(acc + [row]) == row;
    }
  }

  /** The first accepted row makes one artist group and one album root. */
  lemma InsertFirstAbstracts(b: Builder, row: Row, env: Env)
    requires Open(b, env) && Abstracts(b, [], env)
    ensures Abstracts(Builder(ArtistInsert(b.byArtist, row, env), AlbumInsert(b.byAlbum, row, env)), [row], env)
  {
    RunsConst([row], ArtistKey(env.lower));
    RunsConst([row], AlbumKey(env.lower));
    RunsConst([row], PairKey(env.lower));
    assert [row][..0] == [];
    assert Leaves([row], env.transform) == [Leaf(row, env.transform)];
    assert ArtistForest([row], env) == [ArtistNode([row], env)];
    assert AlbumForest([row], env) == [AlbumRoot(row, [Leaf(row, env.transform)])];
  }

  /**
   * The streamed builder, started on cleared stores, produces exactly the
   * run-based reference trees of the rows it accepts.
   */
  lemma {:induction false} FoldBuildsForests(rows: seq<Row>, env: Env)
    ensures Abstracts(Fold(Start, rows, env), Accepted(rows, env.ampache), env)
    decreases |rows|
  {
    if |rows| == 0 {
      assert Runs([], ArtistKey(env.lower)) == [];
      assert Runs([], PairKey(env.lower)) == [];
    } else {
      var init := rows[..|rows| - 1];
      FoldBuildsForests(init, env);
      FoldSnoc(Start, rows, env);
      FoldSnoc(Start, init, env);
      var b := Fold(Start, init, env);
      var acc := Accepted(init, env.ampache);
      match Prepare(Last(rows), env.ampache)
      case None =>
      case Some(row) =>
        InsertAbstracts(b, acc, row, env);
    }
  }

  // ---------------------------------------------------------------------
  // One leaf per accepted row, in arrival order

  lemma ChildrenSnoc(pre: seq<Node>, t: Node)
    ensures Children(pre + [t]) == Children(pre) + t.kids
  {
    assert (pre + [t])[..|pre|] == pre;
  }

  lemma ChildrenAppendToLast(ts: seq<Node>, n: Node)
    requires |ts| > 0
    ensures Children(AppendToLast(ts, n)) == Children(ts) + [n]
  {
    var pre := ts[..|ts| - 1];
    var t := Last(ts);
    FrontLast(AppendToLast(ts, n));
    FrontLast(ts);
    ChildrenSnoc(pre, Node(t.cols, t.kids + [n]));
    ChildrenSnoc(pre, t);
    AppendAssoc(Children(pre), t.kids, [n]);
  }

  lemma GrandchildrenAppendToLastLast(ts: seq<Node>, n: Node)
    requires |ts| > 0 && |Last(ts).kids| > 0
    ensures Grandchildren(AppendToLastLast(ts, n)) == Grandchildren(ts) + [n]
  {
    var pre := ts[..|ts| - 1];
    var r := AppendToLastLast(ts, n);
    assert r[..|r| - 1] == pre;
    assert ts == pre + [Last(ts)];
    ChildrenAppendToLast(Last(ts).kids, n);
    assert Children(r) == Children(pre) + AppendToLast(Last(ts).kids, n);
    assert Children(ts) == Children(pre) + Last(ts).kids;
    ChildrenAppend(Children(pre), AppendToLast(Last(ts).kids, n));
    ChildrenAppend(Children(pre), Last(ts).kids);
  }

  lemma GrandchildrenAppendToLast(ts: seq<Node>, g: Cols, n: Node)
    requires |ts| > 0
    ensures Grandchildren(AppendToLast(ts, Node(g, [n]))) == Grandchildren(ts) + [n]
  {
    ChildrenAppendToLast(ts, Node(g, [n]));
    ChildrenAppend(Children(ts), [Node(g, [n])]);
    assert Children([Node(g, [n])]) == [] + [n];
  }

  lemma GrandchildrenAppendRoot(ts: seq<Node>, c: Cols, g: Cols, n: Node)
    ensures Grandchildren(ts + [Node(c, [Node(g, [n])])]) == Grandchildren(ts) + [n]
  {
    assert (ts + [Node(c, [Node(g, [n])])])[..|ts|] == ts;
    ChildrenAppend(Children(ts), [Node(g, [n])]);
    assert Children([Node(g, [n])]) == [] + [n];
  }

  /** Each accepted row adds exactly one track leaf to each tree, at the end. */
  lemma InsertAddsOneLeaf(b: Builder, row: Row, env: Env)
    requires Open(b, env)
    ensures Grandchildren(ArtistInsert(b.byArtist, row, env).roots)
         == Grandchildren(b.byArtist.roots) + [Leaf(row, env.transform)]
    ensures Grandchildren(AlbumInsert(b.byAlbum, row, env).roots)
         == Grandchildren(b.byAlbum.roots) + [Leaf(row, env.transform)]
  {
    var a := b.byArtist;
    var leaf := Leaf(row, env.transform);
    if a.dep == 0 || a.artLower != env.lower(row.artist) {
      GrandchildrenAppendRoot(a.roots, GroupCols(-1, row.artist, ""), GroupCols(-2, row.album, ""), leaf);
    } else if a.dep == 1 || a.albLower != env.lower(row.album) {
      GrandchildrenAppendToLast(a.roots, GroupCols(-2, row.album, ""), leaf);
    } else {
      GrandchildrenAppendToLastLast(a.roots, leaf);
    }
    var l := b.byAlbum;
    if l.dep == 0 || l.key != AlbumKeyOf(row, env.lower) {
      GrandchildrenAppendRoot(l.roots, GroupCols(-1, row.album, row.artist), GroupCols(-2, row.artist, ""), leaf);
    } else {
      GrandchildrenAppendToLastLast(l.roots, leaf);
    }
  }

  /**
   * After any sequence of rows, the track leaves of both trees, read in
   * tree order, are the accepted rows' leaves in fetch order.
   */
  lemma {:induction false} FoldLeavesInOrder(rows: seq<Row>, env: Env)
    ensures Grandchildren(Fold(Start, rows, env).byArtist.roots) == Leaves(Accepted(rows, env.ampache), env.transform)
    ensures Grandchildren(Fold(Start, rows, env).byAlbum.roots) == Leaves(Accepted(rows, env.ampache), env.transform)
    decreases |rows|
  {
    if |rows| > 0 {
      var init := rows[..|rows| - 1];
      FoldLeavesInOrder(init, env);
      FoldSnoc(Start, rows, env);
      FoldSnoc(Start, init, env);
      var b := Fold(Start, init, env);
      var acc := Accepted(init, env.ampache);
      match Prepare(Last(rows), env.ampache)
      case None =>
      case Some(row) =>
        InsertAddsOneLeaf(b, row, env);
        LeavesSnoc(acc, row, env.transform);
    }
  }

  /**
   * `_update_1` and then `_update_2` rescheduled in slices of
   * `DoMax(rowCount)` rows, never killed and with `keepalive` true, leave
   * the run-based reference trees of the accepted rows, with one track leaf
   * per accepted row in fetch order, whatever the slice size.
   */
  lemma SlicedBuildIsReference(rows: seq<Row>, rowCount: int, env: Env)
    ensures var b := RunAllSlices(Start, rows, DoMax(rowCount), StepOf(env));
      && Abstracts(b, Accepted(rows, env.ampache), env)
      && Grandchildren(b.byArtist.roots) == Leaves(Accepted(rows, env.ampache), env.transform)
      && Grandchildren(b.byAlbum.roots) == Leaves(Accepted(rows, env.ampache), env.transform)
  {
    FoldBuildsForests(rows, env);
    FoldLeavesInOrder(rows, env);
  }
}
