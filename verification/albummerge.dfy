/**
 * The merge pass over the by-album tree (TreePage._update_3 and
 * _copy_children in python/songdb.py): neighbouring root groups whose
 * album names agree case-insensitively are folded into the first one by
 * deep-copying the later group's children after the earlier group's own
 * and removing the later group. The pass is sliced at 200 roots per call.
 */
module AlbumMerge {
  import opened Seqs
  import opened Media

  // ---------------------------------------------------------------------
  // The deep copy

  /** The number of rows in the subtree at `n`. */
  function Size(n: Node): nat
  {
    1 + ForestSize(n.kids)
  }

  function ForestSize(ts: seq<Node>): nat
  {
    if |ts| == 0 then 0 else Size(ts[0]) + ForestSize(ts[1..])
  }

  /**
   * `_copy_children(model, p1, p2)`: appends a copy of each child of `p2`,
   * in order, under `p1`, each copy filled by the same routine from the
   * original child.
   */
  function CopyChildren(p1: Node, p2: Node): Node
    decreases Size(p2), 0
  {
    AppendCopies(p1, p2.kids)
  }

  /** The `while c2` loop of `_copy_children`, over the children still to copy. */
  function AppendCopies(p1: Node, cs: seq<Node>): Node
    decreases ForestSize(cs), 1
  {
    if |cs| == 0 then p1
    else
      var c1 := CopyChildren(Node(cs[0].cols, []), cs[0]);
      AppendCopies(Node(p1.cols, p1.kids + [c1]), cs[1..])
  }

  /** The copy is faithful: `p1` ends with exactly `p2`'s children, whole subtrees and all. */
  lemma {:induction false} CopyChildrenAppends(p1: Node, p2: Node)
    ensures CopyChildren(p1, p2) == Node(p1.cols, p1.kids + p2.kids)
    decreases Size(p2), 0
  {
    AppendCopiesAppends(p1, p2.kids);
  }

  lemma {:induction false} AppendCopiesAppends(p1: Node, cs: seq<Node>)
    ensures AppendCopies(p1, cs) == Node(p1.cols, p1.kids + cs)
    decreases ForestSize(cs), 1
  {
    if |cs| > 0 {
      var c := cs[0];
      CopyChildrenAppends(Node(c.cols, []), c);
      assert [] + c.kids == c.kids;
      AppendCopiesAppends(Node(p1.cols, p1.kids + [c]), cs[1..]);
      assert p1.kids + [c] + cs[1..] == p1.kids + cs;
    }
  }

  // ---------------------------------------------------------------------
  // One root: the inner `while` loop

  /** The merge key of a root: its lower-cased name (the album title). */
  function NameKey(lower: string -> string): Node -> string
  {
    (n: Node) => lower(n.cols.name)
  }

  /**
   * The inner loop at root `i`: while the next root has the same
   * lower-cased name, its children are copied under root `i` and it is
   * removed (the iterator then stands on the root after it; removing the
   * last root leaves it invalid, and the pass ends there).
   */
  function Absorb(roots: seq<Node>, i: nat, lower: string -> string): (r: seq<Node>)
    requires i < |roots|
    ensures i < |r| <= |roots| && r[..i] == roots[..i]
    decreases |roots|
  {
    if i + 1 < |roots| && lower(roots[i].cols.name) == lower(roots[i + 1].cols.name) then
      Absorb(roots[..i] + [CopyChildren(roots[i], roots[i + 1])] + roots[i + 2..], i, lower)
    else
      roots
  }

  /** How many of the leading nodes of `rest` have merge key `key`. */
  function PrefixLen(key: string, rest: seq<Node>, lower: string -> string): (k: nat)
    ensures k <= |rest|
    ensures forall j :: 0 <= j < k ==> lower(rest[j].cols.name) == key
    ensures k < |rest| ==> lower(rest[k].cols.name) != key
  {
    if |rest| == 0 || lower(rest[0].cols.name) != key then 0
    else 1 + PrefixLen(key, rest[1..], lower)
  }

  /** The children of a non-empty prefix of a run, the first node's coming first. */
  lemma ChildrenFront(head: Node, rest: seq<Node>, k: nat)
    requires 0 < k <= |rest|
    ensures (head.kids + rest[0].kids) + Children(rest[1..k]) == head.kids + Children(rest[..k])
  {
    assert rest[..k] == [rest[0]] + rest[1..k];
    ChildrenAppend([rest[0]], rest[1..k]);
    assert [rest[0]][..0] == [];
  }

  /**
   * Root `head` absorbs the run of equally named roots that follows it:
   * it keeps its own columns and children and gains theirs, in order,
   * while everything before it and after the run is untouched.
   */
  lemma {:induction false} AbsorbMerges(pre: seq<Node>, head: Node, rest: seq<Node>, lower: string -> string)
    ensures var k := PrefixLen(lower(head.cols.name), rest, lower);
      Absorb(pre + [head] + rest, |pre|, lower)
        == pre + [Node(head.cols, head.kids + Children(rest[..k]))] + rest[k..]
    decreases |rest|
  {
    var k := PrefixLen(lower(head.cols.name), rest, lower);
    if k == 0 {
      AbsorbStops(pre, head, rest, lower);
      assert rest[..0] == [] && rest[0..] == rest;
      assert head.kids + [] == head.kids;
    } else {
      var h := Node(head.cols, head.kids + rest[0].kids);
      AbsorbStep(pre, head, rest, lower);
      AbsorbMerges(pre, h, rest[1..], lower);
      AbsorbRest(head, rest, k, lower);
    }
  }

  /** The loop at `pre`'s end stops when the next root has another key. */
  lemma AbsorbStops(pre: seq<Node>, head: Node, rest: seq<Node>, lower: string -> string)
    requires |rest| == 0 || lower(rest[0].cols.name) != lower(head.cols.name)
    ensures Absorb(pre + [head] + rest, |pre|, lower) == pre + [head] + rest
  {
    var roots := pre + [head] + rest;
    assert roots[|pre|] == head;
    if |rest| > 0 {
      assert roots[|pre| + 1] == rest[0];
    }
  }

  /** One turn of the loop: the next root's children are copied under `head` and the root removed. */
  lemma AbsorbStep(pre: seq<Node>, head: Node, rest: seq<Node>, lower: string -> string)
    requires |rest| > 0 && lower(rest[0].cols.name) == lower(head.cols.name)
    ensures Absorb(pre + [head] + rest, |pre|, lower)
         == Absorb(pre + [Node(head.cols, head.kids + rest[0].kids)] + rest[1..], |pre|, lower)
  {
    var roots := pre + [head] + rest;
    var i := |pre|;
    var h := CopyChildren(head, rest[0]);
    assert Absorb(roots, i, lower) == Absorb(pre + [h] + rest[1..], i, lower) by {
      SpliceTwo(pre, head, rest, h);
    }
    CopyChildrenAppends(head, rest[0]);
  }

  /** What the rest of the loop gathers after the first turn is what the whole loop gathers. */
  lemma AbsorbRest(head: Node, rest: seq<Node>, k: nat, lower: string -> string)
    requires k == PrefixLen(lower(head.cols.name), rest, lower) && k > 0
    ensures var h := Node(head.cols, head.kids + rest[0].kids);
      var k' := PrefixLen(lower(h.cols.name), rest[1..], lower);
      && k' == k - 1
      && Node(h.cols, h.kids + Children(rest[1..][..k'])) == Node(head.cols, head.kids + Children(rest[..k]))
      && rest[1..][k'..] == rest[k..]
  {
    ChildrenFront(head, rest, k);
    assert rest[1..][..k - 1] == rest[1..k];
  }

  // ---------------------------------------------------------------------
  // The reference: one root per maximal run of equal keys

  /** A run of equally named roots folded into its first root. */
  function RunNode(run: seq<Node>): Node
    requires |run| > 0
  {
    Node(run[0].cols, Children(run))
  }

  function RunNodes(rs: seq<seq<Node>>): (r: seq<Node>)
    requires forall i :: 0 <= i < |rs| ==> |rs[i]| > 0
    ensures |r| == |rs|
    ensures forall i :: 0 <= i < |rs| ==> r[i] == RunNode(rs[i])
  {
    if |rs| == 0 then [] else [RunNode(rs[0])] + RunNodes(rs[1..])
  }

  /** What the merge pass should produce: every maximal run of equal keys folded into its first root. */
  function Merged(roots: seq<Node>, lower: string -> string): seq<Node>
  {
    RunNodes(Runs(roots, NameKey(lower)))
  }

  // ---------------------------------------------------------------------
  // The whole pass and its slices

  /** The outer `while` loop from root `i` on, without slicing. */
  function MergeFrom(roots: seq<Node>, i: nat, lower: string -> string): seq<Node>
    requires i <= |roots|
    decreases |roots| - i
  {
    if i == |roots| then roots else MergeFrom(Absorb(roots, i, lower), i + 1, lower)
  }

  /** The run that starts at `head` is one group, folded into `head`. */
  lemma HeadRun(head: Node, rest: seq<Node>, lower: string -> string)
    ensures var k := PrefixLen(lower(head.cols.name), rest, lower);
      && Runs([head] + rest[..k], NameKey(lower)) == [[head] + rest[..k]]
      && RunNode([head] + rest[..k]) == Node(head.cols, head.kids + Children(rest[..k]))
  {
    var key := NameKey(lower);
    var k := PrefixLen(lower(head.cols.name), rest, lower);
    var run := [head] + rest[..k];
    forall j | 0 <= j < |run| ensures key(run[j]) == key(run[0]) {
      if j > 0 { assert run[j] == rest[j - 1]; }
    }
    RunsConst(run, key);
    ChildrenCons(head, rest[..k]);
  }

  /** Merging a list is folding its leading run and merging the rest. */
  lemma MergedCons(head: Node, rest: seq<Node>, lower: string -> string)
    ensures var k := PrefixLen(lower(head.cols.name), rest, lower);
      Merged([head] + rest, lower)
        == [Node(head.cols, head.kids + Children(rest[..k]))] + Merged(rest[k..], lower)
  {
    var key := NameKey(lower);
    var k := PrefixLen(lower(head.cols.name), rest, lower);
    var run := [head] + rest[..k];
    var tail := rest[k..];
    assert [head] + rest == run + tail by {
      assert rest == rest[..k] + tail;
    }
    HeadRun(head, rest, lower);
    if k == |rest| {
      assert tail == [];
      assert Runs(tail, key) == [];
      assert run + tail == run;
    } else {
      assert Last(run) == (if k == 0 then head else rest[k - 1]);
      RunsSplit(run, tail, key);
      var rs := Runs([head] + rest, key);
      assert rs == [run] + Runs(tail, key);
      assert rs[1..] == Runs(tail, key);
    }
  }

  /** The group that root `i` becomes once it has absorbed its run. */
  function Folded(roots: seq<Node>, i: nat, lower: string -> string): Node
    requires i < |roots|
  {
    var rest := roots[i + 1..];
    Node(roots[i].cols, roots[i].kids + Children(rest[..PrefixLen(lower(roots[i].cols.name), rest, lower)]))
  }

  /** The roots after the run that starts at root `i`. */
  function AfterRun(roots: seq<Node>, i: nat, lower: string -> string): seq<Node>
    requires i < |roots|
  {
    var rest := roots[i + 1..];
    rest[PrefixLen(lower(roots[i].cols.name), rest, lower)..]
  }

  lemma AbsorbAt(roots: seq<Node>, i: nat, lower: string -> string)
    requires i < |roots|
    ensures Absorb(roots, i, lower) == roots[..i] + [Folded(roots, i, lower)] + AfterRun(roots, i, lower)
  {
    assert roots == roots[..i] + [roots[i]] + roots[i + 1..];
    AbsorbMerges(roots[..i], roots[i], roots[i + 1..], lower);
  }

  lemma MergedAt(roots: seq<Node>, i: nat, lower: string -> string)
    requires i < |roots|
    ensures Merged(roots[i..], lower) == [Folded(roots, i, lower)] + Merged(AfterRun(roots, i, lower), lower)
  {
    assert roots[i..] == [roots[i]] + roots[i + 1..];
    MergedCons(roots[i], roots[i + 1..], lower);
  }

  /** Merging from root `i` leaves the roots before it alone and merges the rest by runs. */
  lemma {:induction false} MergeFromMerges(roots: seq<Node>, i: nat, lower: string -> string)
    requires i <= |roots|
    ensures MergeFrom(roots, i, lower) == roots[..i] + Merged(roots[i..], lower)
    decreases |roots| - i
  {
    if i == |roots| {
      assert roots[i..] == [] && roots[..i] == roots;
      assert Runs(roots[i..], NameKey(lower)) == [];
    } else {
      var h, after := Folded(roots, i, lower), AfterRun(roots, i, lower);
      var a := Absorb(roots, i, lower);
      AbsorbAt(roots, i, lower);
      MergeFromMerges(a, i + 1, lower);
      assert a[..i + 1] == roots[..i] + [h] && a[i + 1..] == after;
      MergedAt(roots, i, lower);
      var m := Merged(after, lower);
      AppendAssoc(roots[..i], [h], m);
    }
  }

  /** How one call of `_update_3` ends. */
  datatype Pass =
    | Paused(roots: seq<Node>, at: nat, again: bool)
    | Finished(roots: seq<Node>)
    | Killed(roots: seq<Node>)

  /**
   * The outer loop of one call, `count` roots into it. After 200 roots it
   * saves its place and asks to be called again iff `keepalive` holds;
   * when it runs off the last root the pass is over. Pausing loses
   * nothing: finishing the pass from where it paused is finishing it from
   * where the call started.
   */
  function MergeLoop(roots: seq<Node>, i: nat, count: nat, keepalive: bool, lower: string -> string): (r: Pass)
    requires i <= |roots| && count <= 200
    ensures !r.Killed? && i <= |r.roots| <= |roots| && r.roots[..i] == roots[..i]
    ensures r.Finished? ==> r.roots == MergeFrom(roots, i, lower)
    ensures r.Paused? ==>
      && r.at == i + (200 - count) && r.at < |r.roots| && r.again == keepalive
      && MergeFrom(r.roots, r.at, lower) == MergeFrom(roots, i, lower)
    decreases |roots| - i
  {
    if i == |roots| then Finished(roots)
    else if count == 200 then Paused(roots, i, keepalive)
    else MergeLoop(Absorb(roots, i, lower), i + 1, count + 1, keepalive, lower)
  }

  /**
   * One scheduled call of `_update_3`, resuming at root `at`: a killed call
   * changes nothing; otherwise it visits at most 200 roots.
   */
  function MergeSlice(roots: seq<Node>, at: nat, kill: bool, keepalive: bool, lower: string -> string): (r: Pass)
    requires at <= |roots|
    ensures kill ==> r == Killed(roots)
    ensures !kill ==> !r.Killed? && at <= |r.roots| <= |roots| && r.roots[..at] == roots[..at]
    ensures !kill && r.Finished? ==> r.roots == MergeFrom(roots, at, lower)
    ensures !kill && r.Paused? ==>
      && r.at == at + 200 && r.at < |r.roots| && r.again == keepalive
      && MergeFrom(r.roots, r.at, lower) == MergeFrom(roots, at, lower)
  {
    if kill then Killed(roots) else MergeLoop(roots, at, 0, keepalive, lower)
  }

  /**
   * Calling `_update_3` again after every pause, never killed and with
   * `keepalive` true, ends with every maximal run of equally named roots
   * folded into one root.
   */
  function RunMerge(roots: seq<Node>, at: nat, lower: string -> string): (r: seq<Node>)
    requires at <= |roots|
    ensures r == roots[..at] + Merged(roots[at..], lower)
    decreases |roots| - at
  {
    MergeFromMerges(roots, at, lower);
    match MergeSlice(roots, at, false, true, lower)
    case Paused(roots', at', _) =>
      var r := RunMerge(roots', at', lower);
      MergeFromMerges(roots', at', lower);
      r
    case Finished(roots') => roots'
    case Killed(roots') => roots'
  }

  // ---------------------------------------------------------------------
  // Properties of the merged roots

  /** After the pass no two neighbouring roots share a lower-cased album name. */
  lemma MergedHasNoAdjacentDuplicates(roots: seq<Node>, lower: string -> string)
    ensures var m := Merged(roots, lower);
      forall j :: 0 < j < |m| ==> lower(m[j - 1].cols.name) != lower(m[j].cols.name)
  {
    var key := NameKey(lower);
    var rs := Runs(roots, key);
    RunsAreMaximal(roots, key);
    var m := Merged(roots, lower);
    forall j | 0 < j < |m|
      ensures lower(m[j - 1].cols.name) != lower(m[j].cols.name)
    {
      var p := rs[j - 1];
      assert key(p[|p| - 1]) == key(p[0]);
      assert key(Last(p)) != key(rs[j][0]);
    }
  }

  lemma ChildrenCons(n: Node, ts: seq<Node>)
    ensures Children([n] + ts) == n.kids + Children(ts)
  {
    ChildrenAppend([n], ts);
    assert [n][..0] == [];
  }

  lemma FlattenCons<T>(x: seq<T>, xs: seq<seq<T>>)
    ensures Flatten([x] + xs) == x + Flatten(xs)
  {
    FlattenAppend([x], xs);
    assert [x][..0] == [];
  }

  lemma {:induction false} ChildrenOfRunNodes(rs: seq<seq<Node>>)
    requires forall i :: 0 <= i < |rs| ==> |rs[i]| > 0
    ensures Children(RunNodes(rs)) == Children(Flatten(rs))
    decreases |rs|
  {
    if |rs| > 0 {
      var r0, rest := rs[0], rs[1..];
      calc {
        Children(RunNodes(rs));
      == { assert RunNodes(rs) == [RunNode(r0)] + RunNodes(rest);
           ChildrenCons(RunNode(r0), RunNodes(rest)); }
        Children(r0) + Children(RunNodes(rest));
      == { ChildrenOfRunNodes(rest); }
        Children(r0) + Children(Flatten(rest));
      == { ChildrenAppend(r0, Flatten(rest)); }
        Children(r0 + Flatten(rest));
      == { assert rs == [r0] + rest;
           FlattenCons(r0, rest); }
        Children(Flatten(rs));
      }
    }
  }

  /**
   * The pass moves children but never loses, duplicates or reorders one:
   * the children of the merged roots, read in order, are those of the
   * input roots, and so are the track rows below them.
   */
  lemma MergedKeepsChildren(roots: seq<Node>, lower: string -> string)
    ensures Children(Merged(roots, lower)) == Children(roots)
    ensures Grandchildren(Merged(roots, lower)) == Grandchildren(roots)
  {
    var rs := Runs(roots, NameKey(lower));
    ChildrenOfRunNodes(rs);
    RunsFlatten(roots, NameKey(lower));
  }
}
