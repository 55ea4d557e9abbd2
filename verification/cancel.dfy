/**
 * Cancellation of scheduled updates (PageCommon._handler and deactivate,
 * FlatPage._cb_update in python/songdb.py). Every idle callback a page
 * schedules is recorded in the deque `_update_id` together with its
 * namespace, a shared list whose first cell is the kill flag. Cancelling
 * drains the deque, removing each source and setting each flag; a slice
 * that finds its flag set returns at once without touching the store.
 */
module Cancel {

  /** One record of `_update_id`: the glib source id and the namespace it was given. */
  datatype Entry = Entry(source: nat, ns: nat)

  /**
   * A page: the deque of scheduled updates; the kill flag of every
   * namespace created so far, by namespace number; the sources glib would
   * still run; the next source id; the page's store and whether it is on
   * view.
   */
  datatype Page<St> = Page(updates: seq<Entry>, killed: seq<bool>, live: set<nat>, next: nat, store: St, shown: bool)

  /** Every queued entry names a namespace that exists. */
  ghost predicate Valid<St>(p: Page<St>)
  {
    forall i :: 0 <= i < |p.updates| ==> p.updates[i].ns < |p.killed|
  }

  /** Namespace `n` is named by some entry of `us`. */
  ghost predicate Queued(us: seq<Entry>, n: nat)
  {
    exists i :: 0 <= i < |us| && us[i].ns == n
  }

  /** The sources named in `us`. */
  function Sources(us: seq<Entry>): set<nat>
  {
    set i | 0 <= i < |us| :: us[i].source
  }

  /**
   * `while self._update_id: popleft; source_remove; namespace[0] = True`:
   * the deque ends empty, every namespace it named is killed, every source
   * it named is removed, and nothing else changes.
   */
  function CancelAll<St>(p: Page<St>): (r: Page<St>)
    requires Valid(p)
    ensures r.updates == [] && Valid(r)
    ensures |r.killed| == |p.killed|
    ensures forall n :: 0 <= n < |p.killed| ==> (r.killed[n] <==> p.killed[n] || Queued(p.updates, n))
    ensures r.live == p.live - Sources(p.updates)
    ensures r.next == p.next && r.store == p.store && r.shown == p.shown
    decreases |p.updates|
  {
    if |p.updates| == 0 then p
    else
      var e := p.updates[0];
      var q := p.(updates := p.updates[1..], killed := p.killed[e.ns := true], live := p.live - {e.source});
      var r := CancelAll(q);
      assert Sources(p.updates) == {e.source} + Sources(p.updates[1..]) by {
        forall s | s in Sources(p.updates) ensures s in {e.source} + Sources(p.updates[1..]) {
          var i :| 0 <= i < |p.updates| && p.updates[i].source == s;
          if i > 0 {
            assert p.updates[1..][i - 1] == p.updates[i];
          }
        }
        forall s | s in Sources(p.updates[1..]) ensures s in Sources(p.updates) {
          var i :| 0 <= i < |p.updates[1..]| && p.updates[1..][i].source == s;
          assert p.updates[i + 1] == p.updates[1..][i];
        }
      }
      forall n | 0 <= n < |p.killed|
        ensures r.killed[n] <==> p.killed[n] || Queued(p.updates, n)
      {
        if Queued(p.updates, n) && n != e.ns {
          var i :| 0 <= i < |p.updates| && p.updates[i].ns == n;
          assert p.updates[1..][i - 1] == p.updates[i];
        }
        if Queued(p.updates[1..], n) {
          var i :| 0 <= i < |p.updates[1..]| && p.updates[1..][i].ns == n;
          assert p.updates[i + 1] == p.updates[1..][i];
        }
        if n == e.ns {
          assert p.updates[0].ns == n;
        }
      }
      r
  }

  /**
   * `_update_1` or `_update_2` scheduling a callback with namespace `ns`:
   * a new live source, recorded at the back of the deque.
   */
  function Schedule<St>(p: Page<St>, ns: nat): (r: Page<St>)
    requires Valid(p) && ns < |p.killed|
    ensures Valid(r)
    ensures r.updates == p.updates + [Entry(p.next, ns)]
    ensures r.live == p.live + {p.next} && r.next > p.next
    ensures r.killed == p.killed && r.store == p.store && r.shown == p.shown
  {
    p.(updates := p.updates + [Entry(p.next, ns)], live := p.live + {p.next}, next := p.next + 1)
  }

  /** `namespace = [False, ...]`: a fresh namespace, not killed. */
  function NewNamespace<St>(p: Page<St>): (r: (Page<St>, nat))
    requires Valid(p)
    ensures Valid(r.0) && r.1 == |p.killed| && |r.0.killed| == |p.killed| + 1
    ensures r.0.killed[..|p.killed|] == p.killed && !r.0.killed[r.1]
    ensures r.0.updates == p.updates && r.0.live == p.live && r.0.store == p.store
  {
    (p.(killed := p.killed + [false]), |p.killed|)
  }

  /**
   * `PageCommon._handler`: cancel everything queued, then schedule
   * `_update_1` with a fresh namespace, which is the only entry left.
   */
  function Handler<St>(p: Page<St>): (r: Page<St>)
    requires Valid(p)
    ensures Valid(r)
    ensures r.updates == [Entry(p.next, |p.killed|)]
    ensures |r.killed| == |p.killed| + 1 && !r.killed[|p.killed|]
    ensures forall i :: 0 <= i < |p.updates| ==> r.killed[p.updates[i].ns]
    ensures forall n :: 0 <= n < |p.killed| && p.killed[n] ==> r.killed[n]
    ensures r.store == p.store
  {
    var c := CancelAll(p);
    forall i | 0 <= i < |p.updates| ensures c.killed[p.updates[i].ns] {
      assert Queued(p.updates, p.updates[i].ns);
    }
    var (q, ns) := NewNamespace(c);
    Schedule(q, ns)
  }

  /**
   * `PageCommon.deactivate`: cancel everything queued, then take the model
   * off view and clear it. Only a store that is on view is cleared:
   * `clear` empties the store the view shows, and a page showing nothing
   * keeps its rows.
   */
  function Deactivate<St>(p: Page<St>, clear: St -> St): (r: Page<St>)
    requires Valid(p)
    ensures r.updates == [] && !r.shown
    ensures r.store == if p.shown then clear(p.store) else p.store
    ensures |r.killed| == |p.killed|
    ensures forall i :: 0 <= i < |p.updates| ==> r.killed[p.updates[i].ns]
    ensures r.live == p.live - Sources(p.updates)
  {
    var c := CancelAll(p);
    forall i | 0 <= i < |p.updates| ensures c.killed[p.updates[i].ns] {
      assert Queued(p.updates, p.updates[i].ns);
    }
    c.(store := if p.shown then clear(p.store) else p.store, shown := false)
  }

  /** The two layouts of the tree page, chosen with the layout combo. */
  datatype Layout = ByArtist | ByAlbum

  /** The tree page's two stores and the layout whose store the view shows. */
  datatype TreeStores<S> = TreeStores(artist: S, album: S, layout: Layout)

  /** `model.clear()` on the store the tree view shows; the other keeps its rows. */
  function ClearOnView<S>(t: TreeStores<S>, empty: S): TreeStores<S>
  {
    match t.layout
    case ByArtist => t.(artist := empty)
    case ByAlbum => t.(album := empty)
  }

  /**
   * Deactivating the tree page empties only the store of the current
   * layout; the store of the other layout is left as it was, and nothing
   * is cleared while the view shows no model.
   */
  lemma TreeDeactivateClearsOnlyViewed<S>(p: Page<TreeStores<S>>, empty: S)
    requires Valid(p)
    ensures var r := Deactivate(p, t => ClearOnView(t, empty));
      && r.store.layout == p.store.layout
      && (p.shown && p.store.layout == ByArtist ==> r.store.artist == empty && r.store.album == p.store.album)
      && (p.shown && p.store.layout == ByAlbum ==> r.store.album == empty && r.store.artist == p.store.artist)
      && (!p.shown ==> r.store == p.store)
  {
  }

  /**
   * The flat page's search with both entries blank: cancel everything
   * queued and clear the store, which stays on view.
   */
  function ClearSearch<St>(p: Page<St>, empty: St): (r: Page<St>)
    requires Valid(p)
    ensures r.updates == [] && r.shown == p.shown && r.store == empty
    ensures |r.killed| == |p.killed|
    ensures forall i :: 0 <= i < |p.updates| ==> r.killed[p.updates[i].ns]
  {
    var c := CancelAll(p);
    forall i | 0 <= i < |p.updates| ensures c.killed[p.updates[i].ns] {
      assert Queued(p.updates, p.updates[i].ns);
    }
    c.(store := empty)
  }

  /**
   * glib running the callback of entry `e`: a removed source never runs;
   * a slice that finds its kill flag set returns False at once; otherwise
   * the slice body transforms the store and says whether to run again.
   */
  function Fire<St>(p: Page<St>, e: Entry, body: St -> (St, bool)): (r: Page<St>)
    requires e.ns < |p.killed|
    ensures e.source !in p.live || p.killed[e.ns] ==> r.store == p.store
    ensures e.source in p.live && !p.killed[e.ns] ==> r.store == body(p.store).0
    ensures r.updates == p.updates && r.killed == p.killed && r.live <= p.live
  {
    if e.source !in p.live then p
    else if p.killed[e.ns] then p.(live := p.live - {e.source})
    else
      var (s, again) := body(p.store);
      p.(store := s, live := if again then p.live else p.live - {e.source})
  }

  /**
   * Once a new request's results arrive, no slice of an earlier update
   * can change the store any more, whatever it would have done.
   */
  lemma StaleSlicesInert<St>(p: Page<St>, i: nat, body: St -> (St, bool))
    requires Valid(p) && i < |p.updates|
    ensures var r := Handler(p);
      Fire(r, p.updates[i], body).store == r.store
  {
  }

  /** The update the handler schedules is the one that does run. */
  lemma FreshUpdateRuns<St>(p: Page<St>, body: St -> (St, bool))
    requires Valid(p)
    ensures var r := Handler(p);
      Fire(r, r.updates[0], body).store == body(r.store).0
  {
  }
}
