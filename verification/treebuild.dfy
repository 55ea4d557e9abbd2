/**
 * The streamed construction of the two browse trees (TreePage._update_2 in
 * python/songdb.py): every fetched row becomes one track leaf in the
 * artist -> album -> track tree and one in the album -> artist -> track
 * tree, grouped by two small depth state machines that compare the open
 * group keys case-insensitively.
 */
module TreeBuild {
  import opened Options
  import opened Seqs
  import opened Media
  import opened Slicing

  /**
   * The collaborators of one build: `str.lower`, the user's path transform,
   * and whether the database is Ampache (whose file column needs splitting).
   */
  datatype Env = Env(lower: string -> string, transform: string -> string, ampache: bool)

  /** The artist tree with its depth state `r_dep` and the open group keys. */
  datatype ArtistTree = ArtistTree(roots: seq<Node>, dep: nat, artLower: string, albLower: string)

  /** The album tree with its depth state `l_dep` and the open group key. */
  datatype AlbumTree = AlbumTree(roots: seq<Node>, dep: nat, key: (string, string))

  /** Everything a build carries from one row, and one slice, to the next. */
  datatype Builder = Builder(byArtist: ArtistTree, byAlbum: AlbumTree)

  /** Freshly cleared stores with both depth states at 0. */
  const Start: Builder := Builder(ArtistTree([], 0, "", ""), AlbumTree([], 0, ("", "")))

  /** Appends `n` as the last child of the last node of `ts`. */
  function AppendToLast(ts: seq<Node>, n: Node): (r: seq<Node>)
    requires |ts| > 0
    ensures |r| == |ts| && r[..|ts| - 1] == ts[..|ts| - 1]
    ensures Last(r) == Node(Last(ts).cols, Last(ts).kids + [n])
  {
    ts[..|ts| - 1] + [Node(Last(ts).cols, Last(ts).kids + [n])]
  }

  /** Appends `n` as the last child of the last child of the last node. */
  function AppendToLastLast(ts: seq<Node>, n: Node): seq<Node>
    requires |ts| > 0 && |Last(ts).kids| > 0
  {
    ts[..|ts| - 1] + [Node(Last(ts).cols, AppendToLast(Last(ts).kids, n))]
  }

  /** Opening an empty group and then filling it is appending it filled. */
  lemma AppendThenFill(ts: seq<Node>, g: Cols, n: Node)
    requires |ts| > 0
    ensures AppendToLastLast(AppendToLast(ts, Node(g, [])), n) == AppendToLast(ts, Node(g, [n]))
  {
    var t1 := AppendToLast(ts, Node(g, []));
    var ks := Last(t1).kids;
    assert ks == Last(ts).kids + [Node(g, [])];
    assert ks[..|ks| - 1] == Last(ts).kids;
    assert [] + [n] == [n];
    assert AppendToLast(Last(t1).kids, n) == Last(ts).kids + [Node(g, [n])];
  }

  // ---------------------------------------------------------------------
  // The artist -> album -> track state machine (r_dep)

  function ArtistGroup(row: Row): Node
  {
    Node(GroupCols(-1, row.artist, ""), [])
  }

  function AlbumUnderArtist(row: Row): Node
  {
    Node(GroupCols(-2, row.album, ""), [])
  }

  /**
   * The open groups of the artist tree: at depth 1 the last root is the
   * open artist group, at depth 2 its last child is the open album group,
   * and the remembered lower-case keys are those of the open groups.
   */
  predicate ArtistOpen(a: ArtistTree, lower: string -> string)
  {
    && a.dep <= 2
    && (a.dep >= 1 ==> |a.roots| > 0 && a.artLower == lower(Last(a.roots).cols.name))
    && (a.dep == 2 ==>
          |Last(a.roots).kids| > 0 && a.albLower == lower(Last(Last(a.roots).kids).cols.name))
  }

  /** How many depth transitions the artist machine still needs for `row`. */
  function ArtistRank(a: ArtistTree, row: Row, lower: string -> string): nat
  {
    var art := a.artLower == lower(row.artist);
    var alb := a.albLower == lower(row.album);
    if a.dep == 0 then 2
    else if a.dep == 1 then (if art then 1 else 3)
    else if art && alb then 0
    else if art then 2
    else 4
  }

  /**
   * The `while 1` loop of the artist tree for one row: depth 0 opens an
   * artist group, depth 1 opens an album group under a matching artist or
   * falls back to 0, depth 2 appends the track under matching groups or
   * falls back to 1. The contract states the outcome in closed form: a new
   * artist group exactly when the lower-cased artist differs from the open
   * one, else a new album group exactly when the lower-cased album differs,
   * else the leaf joins the open album group.
   */
  function ArtistInsert(a: ArtistTree, row: Row, env: Env): (r: ArtistTree)
    requires ArtistOpen(a, env.lower)
    ensures ArtistOpen(r, env.lower) && r.dep == 2
    ensures r.artLower == env.lower(row.artist) && r.albLower == env.lower(row.album)
    ensures a.dep == 0 || a.artLower != env.lower(row.artist) ==>
      r.roots == a.roots + [Node(GroupCols(-1, row.artist, ""),
                                 [Node(GroupCols(-2, row.album, ""), [Leaf(row, env.transform)])])]
    ensures a.dep != 0 && a.artLower == env.lower(row.artist)
            && (a.dep == 1 || a.albLower != env.lower(row.album)) ==>
      r.roots == AppendToLast(a.roots, Node(GroupCols(-2, row.album, ""), [Leaf(row, env.transform)]))
    ensures a.dep == 2 && a.artLower == env.lower(row.artist) && a.albLower == env.lower(row.album) ==>
      r.roots == AppendToLastLast(a.roots, Leaf(row, env.transform))
    decreases ArtistRank(a, row, env.lower)
  {
    if a.dep == 0 then
      ArtistInsert(ArtistTree(a.roots + [ArtistGroup(row)], 1, env.lower(row.artist), a.albLower), row, env)
    else if a.dep == 1 then
      if a.artLower == env.lower(row.artist) then
        AppendThenFill(a.roots, GroupCols(-2, row.album, ""), Leaf(row, env.transform));
        ArtistInsert(ArtistTree(AppendToLast(a.roots, AlbumUnderArtist(row)), 2, a.artLower, env.lower(row.album)), row, env)
      else
        ArtistInsert(a.(dep := 0), row, env)
    else if a.artLower == env.lower(row.artist) && a.albLower == env.lower(row.album) then
      a.(roots := AppendToLastLast(a.roots, Leaf(row, env.transform)))
    else
      ArtistInsert(a.(dep := 1), row, env)
  }

  // ---------------------------------------------------------------------
  // The album -> artist -> track state machine (l_dep)

  /** An album root (the artist name in its extra column) with its artist child. */
  function AlbumRoot(row: Row, leaves: seq<Node>): Node
  {
    Node(GroupCols(-1, row.album, row.artist), [Node(GroupCols(-2, row.artist, ""), leaves)])
  }

  /** The case-insensitive key of the open album tree group. */
  function AlbumKeyOf(row: Row, lower: string -> string): (string, string)
  {
    (lower(row.album), lower(row.artist))
  }

  /**
   * The open group of the album tree: at depth 1 the last root and its
   * last child are the open album and artist groups, and the remembered
   * key is the lower-cased (album, artist) of that root.
   */
  predicate AlbumOpen(l: AlbumTree, lower: string -> string)
  {
    && l.dep <= 1
    && (l.dep == 1 ==>
          && |l.roots| > 0 && |Last(l.roots).kids| > 0
          && l.key == (lower(Last(l.roots).cols.name), lower(Last(l.roots).cols.extra)))
  }

  function AlbumRank(l: AlbumTree, row: Row, lower: string -> string): nat
  {
    if l.dep == 0 then 1 else if l.key == AlbumKeyOf(row, lower) then 0 else 2
  }

  /**
   * The `while 1` loop of the album tree for one row: depth 0 opens an
   * album root and its artist child together, depth 1 appends the track
   * when the lower-cased (album, artist) matches the open key and falls
   * back to 0 otherwise. In closed form: a new root exactly when the key
   * differs from the open one, else the leaf joins the open artist child.
   */
  function AlbumInsert(l: AlbumTree, row: Row, env: Env): (r: AlbumTree)
    requires AlbumOpen(l, env.lower)
    ensures AlbumOpen(r, env.lower) && r.dep == 1 && r.key == AlbumKeyOf(row, env.lower)
    ensures l.dep == 0 || l.key != AlbumKeyOf(row, env.lower) ==>
      r.roots == l.roots + [AlbumRoot(row, [Leaf(row, env.transform)])]
    ensures l.dep == 1 && l.key == AlbumKeyOf(row, env.lower) ==>
      r.roots == AppendToLastLast(l.roots, Leaf(row, env.transform))
    decreases AlbumRank(l, row, env.lower)
  {
    if l.dep == 0 then
      var ts := l.roots + [AlbumRoot(row, [])];
      assert AppendToLastLast(ts, Leaf(row, env.transform))
          == l.roots + [AlbumRoot(row, [Leaf(row, env.transform)])] by {
        assert ts[..|ts| - 1] == l.roots;
        var child := Node(GroupCols(-2, row.artist, ""), []);
        assert Last(ts).kids == [child];
        assert [] + [Leaf(row, env.transform)] == [Leaf(row, env.transform)];
        assert AppendToLast([child], Leaf(row, env.transform))
            == [Node(child.cols, [Leaf(row, env.transform)])];
      }
      AlbumInsert(AlbumTree(ts, 1, AlbumKeyOf(row, env.lower)), row, env)
    else if l.key == AlbumKeyOf(row, env.lower) then
      l.(roots := AppendToLastLast(l.roots, Leaf(row, env.transform)))
    else
      AlbumInsert(l.(dep := 0), row, env)
  }

  // ---------------------------------------------------------------------
  // Rows, folds and slices

  predicate Open(b: Builder, env: Env)
  {
    ArtistOpen(b.byArtist, env.lower) && AlbumOpen(b.byAlbum, env.lower)
  }

  /** One pass of the `for` body: skip an unsplittable Ampache row, else feed both trees. */
  function InsertRow(b: Builder, row: Row, env: Env): (r: Builder)
    requires Open(b, env)
    ensures Open(r, env)
    ensures Prepare(row, env.ampache).None? ==> r == b
    ensures Prepare(row, env.ampache).Some? ==>
      r == Builder(ArtistInsert(b.byArtist, Prepare(row, env.ampache).value, env),
                   AlbumInsert(b.byAlbum, Prepare(row, env.ampache).value, env))
  {
    match Prepare(row, env.ampache)
    case None => b
    case Some(prepared) =>
      Builder(ArtistInsert(b.byArtist, prepared, env), AlbumInsert(b.byAlbum, prepared, env))
  }

  /**
   * The row step as a total function, so that the generic slicing applies;
   * every state the build reaches is open (FoldSnoc), so the guard never
   * decides anything.
   */
  function StepOf(env: Env): (Builder, Row) -> Builder
  {
    (b: Builder, row: Row) => if Open(b, env) then InsertRow(b, row, env) else b
  }

  /** Feeding `rows` to the builder one at a time, in fetch order. */
  function Fold(b: Builder, rows: seq<Row>, env: Env): Builder
  {
    FoldL(b, rows, StepOf(env))
  }

  /** From an open state the fold stays open and takes each row by InsertRow. */
  lemma {:induction false} FoldSnoc(b: Builder, rows: seq<Row>, env: Env)
    requires Open(b, env)
    ensures Open(Fold(b, rows, env), env)
    ensures |rows| > 0 ==>
      Fold(b, rows, env) == InsertRow(Fold(b, rows[..|rows| - 1], env), Last(rows), env)
    decreases |rows|
  {
    if |rows| > 0 {
      FoldSnoc(b, rows[..|rows| - 1], env);
    }
  }

  /**
   * Rows per slice, `min(max(30, rows / 100), 200)` with Python 2 integer
   * division (which floors, as Dafny's `/` does for a positive divisor).
   */
  function DoMax(rowCount: int): (r: nat)
    ensures 30 <= r <= 200
    ensures rowCount < 3100 ==> r == 30
    ensures rowCount >= 20000 ==> r == 200
    ensures 3000 <= rowCount < 20100 ==> r * 100 <= rowCount < r * 100 + 100
  {
    var q := rowCount / 100;
    if q < 30 then 30 else if q > 200 then 200 else q
  }

  /**
   * One scheduled call of `_update_2` on the rows the cursor still holds.
   * A killed slice returns at once and leaves the stores alone. Otherwise it
   * consumes at most `doMax` rows: it continues exactly when `doMax` rows
   * were available and `keepalive` held for all of them, and the trees it
   * leaves are the single-pass fold of the rows it consumed. An exhausted
   * slice whose `alive` flag is set schedules the merge pass.
   */
  function BuildSlice(b: Builder, cursor: seq<Row>, doMax: nat, kill: bool, liveFor: nat, env: Env): (r: Slice<Builder, Row>)
    ensures kill ==> r == Halted(b)
    ensures !kill && doMax <= |cursor| && doMax <= liveFor ==>
      r == Continue(Fold(b, cursor[..doMax], env), cursor[doMax..])
    ensures !kill && |cursor| < doMax && |cursor| < liveFor ==>
      r == Exhausted(Fold(b, cursor, env), liveFor > |cursor| + 1)
    ensures !kill && liveFor < doMax && liveFor <= |cursor| ==>
      r == Halted(Fold(b, cursor[..liveFor], env))
  {
    if kill then Halted(b) else RunSlice(b, cursor, doMax, liveFor, StepOf(env))
  }
}
