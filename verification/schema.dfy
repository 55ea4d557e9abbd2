/**
 * Recognising the music database (MediaPane.schema_test and the
 * `_stage_*` / `_fail_*` handler chain in python/songdb.py): a fixed
 * sequence of introspection requests decides between the Prokyon 3 and
 * the Ampache schema, then full-text indexes are added, an index that
 * already exists counting as success, and the pages are handed over.
 */
module Schema {
  import opened Options
  import opened Text
  import Seqs

  // ---------------------------------------------------------------------
  // schema_test

  /** A word: non-empty, with no blank in it. */
  predicate IsWord(w: string)
  {
    |w| > 0 && forall k :: 0 <= k < |w| ==> !IsSpace(w[k])
  }

  /** The length of the run of non-blank characters `t` starts with. */
  function TokenLen(t: string): (n: nat)
    ensures n <= |t|
    ensures forall k :: 0 <= k < n ==> !IsSpace(t[k])
    ensures n < |t| ==> IsSpace(t[n])
    ensures |t| > 0 && !IsSpace(t[0]) ==> n > 0
  {
    if |t| == 0 || IsSpace(t[0]) then 0 else 1 + TokenLen(t[1..])
  }

  /** `str.split()` without arguments: the maximal runs of non-blank characters, in order. */
  function Words(s: string): (r: seq<string>)
    ensures forall i :: 0 <= i < |r| ==> IsWord(r[i])
    decreases |s|
  {
    var t := LStrip(s);
    if |t| == 0 then []
    else
      var n := TokenLen(t);
      var rest := Words(t[n..]);
      assert IsWord(t[..n]);
      [t[..n]] + rest
  }

  /** A leading blank does not change the words. */
  lemma WordsAfterBlank(x: string)
    ensures Words(" " + x) == Words(x)
  {
    var s := " " + x;
    assert s[1..] == x;
    assert LeadingSpaces(s) == 1 + LeadingSpaces(x);
    assert s[1 + LeadingSpaces(x)..] == x[LeadingSpaces(x)..];
  }

  /** A word followed by nothing or by a blank is the first word. */
  lemma WordsCons(w: string, rest: string)
    requires IsWord(w)
    requires |rest| == 0 || IsSpace(rest[0])
    ensures Words(w + rest) == [w] + Words(rest)
  {
    var s := w + rest;
    assert LStrip(s) == s;
    TokenOfWord(w, rest);
    assert s[|w|..] == rest;
  }

  /** A single word splits back into itself. */
  lemma WordsOfWord(w: string)
    requires IsWord(w)
    ensures Words(w) == [w]
  {
    assert w == w + "";
    WordsCons(w, "");
    assert LeadingSpaces("") == 0;
  }

  /** The first of several blank-joined words comes off first. */
  lemma WordsJoinFirst(ws: seq<string>)
    requires |ws| > 1 && IsWord(ws[0])
    ensures Words(Join(ws, " ")) == [ws[0]] + Words(Join(ws[1..], " "))
  {
    var rest := Join(ws[1..], " ");
    assert Join(ws, " ") == ws[0] + (" " + rest);
    WordsCons(ws[0], " " + rest);
    WordsAfterBlank(rest);
  }

  /** Words joined by single blanks split back into those words. */
  lemma {:induction false} WordsJoin(ws: seq<string>)
    requires |ws| > 0
    requires forall i :: 0 <= i < |ws| ==> IsWord(ws[i])
    ensures Words(Join(ws, " ")) == ws
    decreases |ws|
  {
    if |ws| == 1 {
      WordsOfWord(ws[0]);
    } else {
      var tail := ws[1..];
      assert ws == [ws[0]] + tail;
      WordsJoinFirst(ws);
      WordsJoin(tail);
    }
  }

  /** The token at the front of `w + rest` is `w` when `rest` is empty or starts with a blank. */
  lemma {:induction false} TokenOfWord(w: string, rest: string)
    requires IsWord(w)
    requires |rest| == 0 || IsSpace(rest[0])
    ensures TokenLen(w + rest) == |w|
    ensures (w + rest)[..|w|] == w
    decreases |w|
  {
    if |w| > 1 {
      assert (w + rest)[1..] == w[1..] + rest;
      TokenOfWord(w[1..], rest);
    } else {
      assert (w + rest)[1..] == rest;
    }
  }

  /** Every name in `names` is the first column of some row. */
  function AllListed(names: seq<string>, firsts: seq<string>): (r: bool)
    ensures r <==> forall w :: w in names ==> w in firsts
  {
    if |names| == 0 then true
    else names[0] in firsts && AllListed(names[1..], firsts)
  }

  /**
   * `schema_test(string, data)`: the blank-separated names of `string`
   * form a subset of the first column of the fetched rows.
   */
  function SchemaTest(names: string, firsts: seq<string>): (r: bool)
    ensures r <==> forall w :: w in Words(names) ==> w in firsts
  {
    AllListed(Words(names), firsts)
  }

  /** The test of a blank-separated list of words asks for each of those words. */
  lemma SchemaTestOfList(ws: seq<string>, firsts: seq<string>)
    requires |ws| > 0
    requires forall i :: 0 <= i < |ws| ==> IsWord(ws[i])
    ensures SchemaTest(Join(ws, " "), firsts) <==> forall w :: w in ws ==> w in firsts
  {
    WordsJoin(ws);
  }

  // ---------------------------------------------------------------------
  // The handler chain

  /** The requests of the chain. */
  datatype Req = ShowTables | Describe(table: string) | AddFulltext(table: string)

  /**
   * What a request comes back with: its rows' first column, or, after the
   * worker's three attempts, an exception with its error code if any.
   */
  datatype Answer = Rows(firsts: seq<string>) | Error(code: Option<int>)

  /**
   * How the chain ends: the pages are given the database type; the
   * connection is dropped (an unrecognised schema or a failed request);
   * the worker thread dies of an exception; or it still waits for an answer.
   */
  datatype Verdict = HandOver(dbType: string) | Disconnect | Crashed | Waiting

  /** What the chain does, in order: a request, a status message. */
  datatype Event = Ask(req: Req) | Say(note: string)

  /**
   * The handlers, by the request whose answer they take: stage 1 takes
   * SHOW tables, 2 to 3 the Prokyon 3 requests, 4 to 9 the Ampache ones.
   */
  datatype Stage = S1 | S2 | S3 | S4 | S5 | S6 | S7 | S8 | S9

  /** The names each schema test asks for, as the words of its argument. */
  const ProkyonTables: seq<string> := ["tracks"]
  const AmpacheTables: seq<string> := ["album", "artist", "song"]
  const ProkyonColumns: seq<string> := ["artist", "title", "album", "tracknumber", "bitrate", "path", "filename"]
  const SongColumns: seq<string> := ["artist", "title", "album", "track", "bitrate", "file"]
  const NameColumns: seq<string> := ["name", "prefix"]

  /** MySQL's ER_DUP_KEYNAME: the index is there already. */
  const DupKeyName: int := 1061

  const Unrecognised: string := "Unrecognised database"

  /**
   * The request each stage's handler answers. As written, stages 5 and 6
   * both describe the artist table; `fixed` makes stage 6 describe the
   * album table, the one the chain goes on to index.
   */
  function RequestOf(st: Stage, fixed: bool): Req
  {
    match st
    case S1 => ShowTables
    case S2 => Describe("tracks")
    case S3 => AddFulltext("tracks")
    case S4 => Describe("song")
    case S5 => Describe("artist")
    case S6 => if fixed then Describe("album") else Describe("artist")
    case S7 => AddFulltext("album")
    case S8 => AddFulltext("artist")
    case S9 => AddFulltext("song")
  }

  /** The stages of the Prokyon 3 branch. */
  predicate ProkyonStage(st: Stage)
  {
    st == S2 || st == S3
  }

  /** What a handler decides: go on to the next stage, or end. */
  datatype Next = Go(notes: seq<string>, stage: Stage) | Stop(notes: seq<string>, verdict: Verdict)

  /**
   * `_fail_2` and `_fail_3`: an exception without a code, or with 1061,
   * hands over. For any other code the call of the undefined `notify_`
   * raises NameError, which ends the worker thread; with `fixed` it
   * reports the failure and hands over.
   */
  function IndexFailed(dbType: string, code: Option<int>, fixed: bool): (r: Next)
    ensures fixed || code.None? || code.value == DupKeyName ==> r.Stop? && r.verdict == HandOver(dbType)
    ensures !fixed && code.Some? && code.value != DupKeyName ==> r == Stop([], Crashed)
  {
    if code.Some? && code.value != DupKeyName then
      if fixed then Stop(["Failed to create FULLTEXT index"], HandOver(dbType)) else Stop([], Crashed)
    else Stop([], HandOver(dbType))
  }

  /** A schema check: go on if the fetched rows list every name, else report and disconnect. */
  function Check(names: seq<string>, a: Answer, notes: seq<string>, next: Stage): Next
  {
    match a
    case Error(_) => Stop([], Disconnect)
    case Rows(firsts) =>
      if AllListed(names, firsts) then Go(notes, next) else Stop([Unrecognised], Disconnect)
  }

  /**
   * The handler of stage `st` given the answer to its request. The
   * Prokyon 3 stages lead only to each other and hand over only a
   * Prokyon 3 database, the Ampache stages likewise; with the failure
   * handlers fixed no handler ends the worker thread.
   */
  function Step(st: Stage, a: Answer, fixed: bool): (r: Next)
    ensures r.Go? && ProkyonStage(st) ==> ProkyonStage(r.stage)
    ensures r.Go? && st != S1 && !ProkyonStage(st) ==> r.stage != S1 && !ProkyonStage(r.stage)
    ensures r.Stop? && r.verdict.HandOver? ==>
      && st != S1
      && (r.verdict.dbType == "Prokyon 3" || r.verdict.dbType == "Ampache")
      && (ProkyonStage(st) <==> r.verdict.dbType == "Prokyon 3")
    ensures r.Stop? ==> r.verdict != Waiting && (fixed ==> r.verdict != Crashed)
  {
    match st
    case S1 =>
      (match a
       case Error(_) => Stop([], Disconnect)
       case Rows(firsts) =>
         if AllListed(ProkyonTables, firsts) then Go([], S2)
         else if AllListed(AmpacheTables, firsts) then Go([], S4)
         else Stop([Unrecognised], Disconnect))
    case S2 => Check(ProkyonColumns, a, ["Found Prokyon 3 schema"], S3)
    case S3 =>
      (match a
       case Error(code) => IndexFailed("Prokyon 3", code, fixed)
       case Rows(_) => Stop(["Fulltext index added"], HandOver("Prokyon 3")))
    case S4 => Check(SongColumns, a, [], S5)
    case S5 => Check(NameColumns, a, [], S6)
    case S6 => Check(NameColumns, a, ["Found Ampache schema"], S7)
    case S7 =>
      (match a
       case Error(code) => IndexFailed("Ampache", code, fixed)
       case Rows(_) => Go([], S8))
    case S8 =>
      (match a
       case Error(code) => IndexFailed("Ampache", code, fixed)
       case Rows(_) => Go([], S9))
    case S9 =>
      (match a
       case Error(code) => IndexFailed("Ampache", code, fixed)
       case Rows(_) => Stop(["Fulltext index added"], HandOver("Ampache")))
  }

  function Says(notes: seq<string>): (r: seq<Event>)
    ensures |r| == |notes|
    ensures forall i :: 0 <= i < |r| ==> r[i] == Say(notes[i])
  {
    if |notes| == 0 then [] else [Say(notes[0])] + Says(notes[1..])
  }

  /** The requests of `t`, in order. */
  function Asked(t: seq<Event>): (r: seq<Req>)
    ensures |r| <= |t|
  {
    if |t| == 0 then []
    else if t[0].Ask? then [t[0].req] + Asked(t[1..])
    else Asked(t[1..])
  }

  lemma {:induction false} AskedAppend(a: seq<Event>, b: seq<Event>)
    ensures Asked(a + b) == Asked(a) + Asked(b)
    decreases |a|
  {
    if |a| == 0 {
      assert a + b == b;
    } else {
      assert (a + b)[0] == a[0];
      assert (a + b)[1..] == a[1..] + b;
      AskedAppend(a[1..], b);
    }
  }

  lemma {:induction false} AskedSays(notes: seq<string>)
    ensures Asked(Says(notes)) == []
    decreases |notes|
  {
    if |notes| > 0 {
      AskedSays(notes[1..]);
    }
  }

  /** The result of running the chain: what it did and how it ended. */
  datatype Outcome = Outcome(trace: seq<Event>, verdict: Verdict)

  /**
   * The chain from stage `st` on, each request getting the next answer.
   * The Prokyon 3 stages never hand over an Ampache database, nor the
   * Ampache stages a Prokyon 3 one, and with the failure handlers fixed
   * the worker thread never dies.
   */
  function Chain(st: Stage, answers: seq<Answer>, fixed: bool): (r: Outcome)
    ensures |r.trace| > 0 && r.trace[0] == Ask(RequestOf(st, fixed))
    ensures r.verdict.HandOver? ==> r.verdict.dbType == "Prokyon 3" || r.verdict.dbType == "Ampache"
    ensures ProkyonStage(st) ==> r.verdict != HandOver("Ampache")
    ensures st != S1 && !ProkyonStage(st) ==> r.verdict != HandOver("Prokyon 3")
    ensures fixed ==> r.verdict != Crashed
    decreases |answers|
  {
    var ask := [Ask(RequestOf(st, fixed))];
    if |answers| == 0 then Outcome(ask, Waiting)
    else
      match Step(st, answers[0], fixed)
      case Stop(notes, v) => Outcome(ask + Says(notes), v)
      case Go(notes, next) =>
        var rest := Chain(next, answers[1..], fixed);
        Outcome(ask + Says(notes) + rest.trace, rest.verdict)
  }

  /** `_dbtoggle` with connection data: the chain starts with SHOW tables. */
  function Recognise(answers: seq<Answer>, fixed: bool): Outcome
  {
    Chain(S1, answers, fixed)
  }

  /** The fetched rows pass the schema test for `names`. */
  predicate Listed(a: Answer, names: seq<string>)
  {
    a.Rows? && AllListed(names, a.firsts)
  }

  /** An ALTER TABLE that went through, or a failure that still counts as done. */
  predicate Indexed(a: Answer, fixed: bool)
  {
    a.Rows? || a.code.None? || a.code.value == DupKeyName || fixed
  }

  /**
   * Reference for the last `n` ALTER TABLE requests: each one goes through
   * until the last, or the first failure is one that counts as done.
   */
  predicate IndexesDone(answers: seq<Answer>, n: nat, fixed: bool)
    decreases n
  {
    n > 0 && |answers| > 0 && Indexed(answers[0], fixed)
    && (answers[0].Rows? && n > 1 ==> IndexesDone(answers[1..], n - 1, fixed))
  }

  /** How many ALTER TABLE requests an Ampache indexing stage has left, its own included. */
  function AlterLeft(st: Stage): nat
  {
    match st
    case S7 => 3
    case S8 => 2
    case _ => 1
  }

  lemma {:induction false} AmpacheIndexing(st: Stage, answers: seq<Answer>, fixed: bool)
    requires st == S7 || st == S8 || st == S9
    ensures Chain(st, answers, fixed).verdict == HandOver("Ampache") <==> IndexesDone(answers, AlterLeft(st), fixed)
    decreases |answers|
  {
    if |answers| > 0 && answers[0].Rows? && st != S9 {
      var next := if st == S7 then S8 else S9;
      AmpacheIndexing(next, answers[1..], fixed);
    }
  }

  /**
   * A Prokyon 3 database is handed over exactly when SHOW tables lists
   * `tracks`, DESCRIBE tracks lists every column the pages use, and the
   * full-text index is added or counts as done.
   */
  lemma ProkyonRecognised(answers: seq<Answer>, fixed: bool)
    ensures Recognise(answers, fixed).verdict == HandOver("Prokyon 3") <==>
      && |answers| >= 3
      && Listed(answers[0], ProkyonTables)
      && Listed(answers[1], ProkyonColumns)
      && Indexed(answers[2], fixed)
  {
    var v := Recognise(answers, fixed).verdict;
    if |answers| >= 1 && Listed(answers[0], ProkyonTables) {
      assert v == Chain(S2, answers[1..], fixed).verdict;
      if |answers| >= 2 && Listed(answers[1], ProkyonColumns) {
        assert answers[1..][1..] == answers[2..];
        assert v == Chain(S3, answers[2..], fixed).verdict;
        if |answers| >= 3 {
          assert answers[2..][0] == answers[2];
        }
      }
    } else if |answers| >= 1 && !Listed(answers[0], ProkyonTables) && Listed(answers[0], AmpacheTables) {
      assert v == Chain(S4, answers[1..], fixed).verdict;
    }
  }

  /**
   * An Ampache database is handed over exactly when SHOW tables lists
   * `album`, `artist` and `song` but not `tracks`, the three DESCRIBE
   * answers list the required columns, and the full-text indexes are added
   * or count as done.
   */
  lemma AmpacheRecognised(answers: seq<Answer>, fixed: bool)
    ensures Recognise(answers, fixed).verdict == HandOver("Ampache") <==>
      && |answers| >= 5
      && Listed(answers[0], AmpacheTables) && !Listed(answers[0], ProkyonTables)
      && Listed(answers[1], SongColumns)
      && Listed(answers[2], NameColumns)
      && Listed(answers[3], NameColumns)
      && IndexesDone(answers[4..], 3, fixed)
  {
    var v := Recognise(answers, fixed).verdict;
    if |answers| >= 1 && Listed(answers[0], AmpacheTables) && !Listed(answers[0], ProkyonTables) {
      assert v == Chain(S4, answers[1..], fixed).verdict;
      if |answers| >= 2 && Listed(answers[1], SongColumns) {
        assert answers[1..][1..] == answers[2..];
        assert v == Chain(S5, answers[2..], fixed).verdict;
        if |answers| >= 3 && Listed(answers[2], NameColumns) {
          assert answers[2..][1..] == answers[3..];
          assert v == Chain(S6, answers[3..], fixed).verdict;
          if |answers| >= 4 && Listed(answers[3], NameColumns) {
            assert answers[3..][1..] == answers[4..];
            assert v == Chain(S7, answers[4..], fixed).verdict;
            AmpacheIndexing(S7, answers[4..], fixed);
          }
        }
      }
    } else if |answers| >= 1 && Listed(answers[0], ProkyonTables) {
      assert v == Chain(S2, answers[1..], fixed).verdict;
    }
  }

  /** `schema_test` of blank-separated words tests each of those words. */
  lemma SchemaTestWords(ws: seq<string>, names: string, firsts: seq<string>)
    requires |ws| > 0 && forall i :: 0 <= i < |ws| ==> IsWord(ws[i])
    requires names == Join(ws, " ")
    ensures SchemaTest(names, firsts) == AllListed(ws, firsts)
  {
    WordsJoin(ws);
  }

  /** A stage that goes on asks its request, then whatever the next stage asks. */
  lemma AskedGo(st: Stage, answers: seq<Answer>, fixed: bool)
    requires |answers| > 0 && Step(st, answers[0], fixed).Go?
    ensures var n := Step(st, answers[0], fixed);
      Asked(Chain(st, answers, fixed).trace) == [RequestOf(st, fixed)] + Asked(Chain(n.stage, answers[1..], fixed).trace)
  {
    var n := Step(st, answers[0], fixed);
    var ask := [Ask(RequestOf(st, fixed))];
    var rest := Chain(n.stage, answers[1..], fixed).trace;
    assert Chain(st, answers, fixed).trace == ask + Says(n.notes) + rest;
    AskedAppend(ask + Says(n.notes), rest);
    AskedAppend(ask, Says(n.notes));
    AskedSays(n.notes);
    assert Asked(ask) == [RequestOf(st, fixed)] by {
      assert ask[1..] == [];
    }
  }

  /** A stage that ends the chain asks only its own request. */
  lemma AskedStop(st: Stage, answers: seq<Answer>, fixed: bool)
    requires |answers| == 0 || Step(st, answers[0], fixed).Stop?
    ensures Asked(Chain(st, answers, fixed).trace) == [RequestOf(st, fixed)]
  {
    var ask := [Ask(RequestOf(st, fixed))];
    assert Asked(ask) == [RequestOf(st, fixed)] by {
      assert ask[1..] == [];
    }
    if |answers| > 0 {
      var n := Step(st, answers[0], fixed);
      AskedAppend(ask, Says(n.notes));
      AskedSays(n.notes);
    }
  }

  /** Every answer goes to one request, in order; the chain waits only once all are used. */
  lemma {:induction false} OneAnswerPerRequest(st: Stage, answers: seq<Answer>, fixed: bool)
    ensures var r := Chain(st, answers, fixed);
      && 1 <= |Asked(r.trace)| <= |answers| + 1
      && (r.verdict == Waiting <==> |Asked(r.trace)| == |answers| + 1)
    decreases |answers|
  {
    if |answers| > 0 && Step(st, answers[0], fixed).Go? {
      AskedGo(st, answers, fixed);
      OneAnswerPerRequest(Step(st, answers[0], fixed).stage, answers[1..], fixed);
    } else {
      AskedStop(st, answers, fixed);
    }
  }

  /** As written, no stage ever asks for the columns of the album table. */
  lemma {:induction false} AlbumNeverDescribed(st: Stage, answers: seq<Answer>)
    ensures Describe("album") !in Asked(Chain(st, answers, false).trace)
    decreases |answers|
  {
    if |answers| > 0 && Step(st, answers[0], false).Go? {
      AskedGo(st, answers, false);
      AlbumNeverDescribed(Step(st, answers[0], false).stage, answers[1..]);
    } else {
      AskedStop(st, answers, false);
    }
  }

  /**
   * The first four requests on the way to an Ampache hand-over: stage 6
   * asks about the artist table a second time as written, and about the
   * album table once corrected, whose answer must then list `name` and
   * `prefix`.
   */
  lemma AmpacheRequests(answers: seq<Answer>, fixed: bool)
    requires Recognise(answers, fixed).verdict == HandOver("Ampache")
    ensures var asked := Asked(Recognise(answers, fixed).trace);
      && |answers| >= 5 && |asked| >= 4
      && asked[..4] == [ShowTables, Describe("song"), Describe("artist"), if fixed then Describe("album") else Describe("artist")]
      && Listed(answers[3], NameColumns)
  {
    AmpacheRecognised(answers, fixed);
    var a1, a2, a3 := answers[1..], answers[2..], answers[3..];
    var x := if fixed then Describe("album") else Describe("artist");
    var rest := Asked(Chain(S7, answers[4..], fixed).trace);
    assert Asked(Chain(S6, a3, fixed).trace) == [x] + rest by {
      assert a3[1..] == answers[4..];
      AskedGo(S6, a3, fixed);
    }
    assert Asked(Chain(S5, a2, fixed).trace) == [Describe("artist")] + Asked(Chain(S6, a3, fixed).trace) by {
      assert a2[1..] == a3;
      AskedGo(S5, a2, fixed);
    }
    assert Asked(Chain(S4, a1, fixed).trace) == [Describe("song")] + Asked(Chain(S5, a2, fixed).trace) by {
      assert a1[1..] == a2;
      AskedGo(S4, a1, fixed);
    }
    assert Asked(Recognise(answers, fixed).trace) == [ShowTables] + Asked(Chain(S4, a1, fixed).trace) by {
      AskedGo(S1, answers, fixed);
    }
    Seqs.ConsFour(ShowTables, Describe("song"), Describe("artist"), x, rest);
  }

  /**
   * As written, when the Prokyon 3 full-text index cannot be added for any
   * reason but 1061 (MySQL's 1142, command denied, say) the worker thread
   * dies and the database is never handed over; corrected, the failure is
   * reported and the database handed over all the same.
   */
  lemma DeniedIndexCrashes(answers: seq<Answer>, code: int)
    requires |answers| == 3 && Listed(answers[0], ProkyonTables) && Listed(answers[1], ProkyonColumns)
    requires answers[2] == Error(Some(code)) && code != DupKeyName
    ensures Recognise(answers, false).verdict == Crashed
    ensures Recognise(answers, true).verdict == HandOver("Prokyon 3")
    ensures Say("Failed to create FULLTEXT index") in Recognise(answers, true).trace
  {
    assert answers[1..][1..] == [answers[2]];
    assert Recognise(answers, false).verdict == Chain(S2, answers[1..], false).verdict;
    assert Chain(S2, answers[1..], false).verdict == Chain(S3, [answers[2]], false).verdict;
    var t := Chain(S3, [answers[2]], true).trace;
    assert t == [Ask(AddFulltext("tracks"))] + Says(["Failed to create FULLTEXT index"]);
    assert t[1] == Say("Failed to create FULLTEXT index");
    var t2 := Chain(S2, answers[1..], true).trace;
    assert t2 == [Ask(Describe("tracks"))] + Says(["Found Prokyon 3 schema"]) + t;
    assert t2[2..] == t;
    var t1 := Recognise(answers, true).trace;
    assert t1 == [Ask(ShowTables)] + Says([]) + t2;
    assert t1[1..] == t2;
    assert t1[4] == t2[3] == t[1];
  }
}
