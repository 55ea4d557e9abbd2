/**
 * Rows fetched from the music database and the nodes of the two tree
 * stores built from them (python/songdb.py, TreePage and FlatPage).
 */
module Media {
  import opened Options
  import opened Seqs
  import opened Text

  /**
   * One fetched record, in query column order: artist, album, track
   * number, title, length in seconds, bitrate, filename, path and disk.
   * For the Ampache schema the filename column holds the full file path
   * and the path column is empty padding.
   */
  datatype Row = Row(
    artist: string, album: string, track: int, title: string,
    length: int, bitrate: int, filename: string, path: string, disk: int)

  /**
   * The columns of a tree store row: depth marker (-1 and -2 for group
   * nodes, 0 for a track), display name, track, duration, bitrate,
   * filename, path, disk, and the album store's extra string column
   * (the artist store has no ninth column; it is "" there).
   */
  datatype Cols = Cols(
    depth: int, name: string, track: int, length: int, bitrate: int,
    filename: string, path: string, disk: int, extra: string)

  /** A tree store row with its children, in append order. */
  datatype Node = Node(cols: Cols, kids: seq<Node>)

  /** A group node's columns: placeholder values except depth and name. */
  function GroupCols(depth: int, name: string, extra: string): Cols
  {
    Cols(depth, name, 0, 0, 0, "", "", 0, extra)
  }

  /** The track row stored for `row`, with the path transform applied. */
  function LeafCols(row: Row, transform: string -> string): Cols
  {
    Cols(0, row.title, row.track, row.length, row.bitrate, row.filename,
         transform(row.path), row.disk, "")
  }

  function Leaf(row: Row, transform: string -> string): Node
  {
    Node(LeafCols(row, transform), [])
  }

  /** The leaves of `rows`, in order. */
  function Leaves(rows: seq<Row>, transform: string -> string): (r: seq<Node>)
    ensures |r| == |rows|
    ensures forall i :: 0 <= i < |rows| ==> r[i] == Leaf(rows[i], transform)
  {
    if |rows| == 0 then [] else Leaves(rows[..|rows| - 1], transform) + [Leaf(Last(rows), transform)]
  }

  /**
   * `rsplit("/", 1)` unpacked into (directory, filename); None when the
   * string holds no '/', where the two-name unpacking raises ValueError.
   */
  function SplitFile(file: string): (r: Option<(string, string)>)
    ensures r.None? <==> '/' !in file
    ensures r.Some? ==> r.value.0 + "/" + r.value.1 == file && '/' !in r.value.1
  {
    SplitLast(file, '/')
  }

  /**
   * The row as the tree builder stores it: unchanged for Prokyon 3; for
   * Ampache the full file path is split at its last '/' into filename
   * and directory, and a path without '/' makes the row skipped.
   */
  function Prepare(row: Row, ampache: bool): (r: Option<Row>)
    ensures !ampache ==> r == Some(row)
    ensures ampache ==> (r.None? <==> '/' !in row.filename)
    ensures ampache && r.Some? ==>
      && r.value.path + "/" + r.value.filename == row.filename
      && '/' !in r.value.filename
      && r.value == row.(filename := r.value.filename, path := r.value.path)
  {
    if !ampache then Some(row)
    else
      match SplitFile(row.filename)
      case None => None
      case Some((dir, name)) => Some(row.(filename := name, path := dir))
  }

  /** The prepared rows that the builder does not skip, in fetch order. */
  function Accepted(rows: seq<Row>, ampache: bool): (r: seq<Row>)
    ensures |r| <= |rows|
    ensures !ampache ==> r == rows
  {
    if |rows| == 0 then []
    else
      var init := Accepted(rows[..|rows| - 1], ampache);
      assert !ampache ==> rows == rows[..|rows| - 1] + [Last(rows)];
      match Prepare(Last(rows), ampache)
      case None => init
      case Some(row) => init + [row]
  }

  /** The children of the nodes `ts`, concatenated in order. */
  function Children(ts: seq<Node>): seq<Node>
  {
    if |ts| == 0 then [] else Children(ts[..|ts| - 1]) + Last(ts).kids
  }

  /** The track rows of a three-level forest: the children of its children. */
  function Grandchildren(ts: seq<Node>): seq<Node>
  {
    Children(Children(ts))
  }

  lemma {:induction false} ChildrenAppend(a: seq<Node>, b: seq<Node>)
    ensures Children(a + b) == Children(a) + Children(b)
    decreases |b|
  {
    if |b| == 0 {
      assert a + b == a;
    } else {
      var b' := b[..|b| - 1];
      assert (a + b)[..|a + b| - 1] == a + b';
      ChildrenAppend(a, b');
    }
  }
}
