/**
 * The search button of the flat page (FlatPage._cb_update in
 * python/songdb.py): picks the fuzzy or the WHERE query of the current
 * database type, builds the request from the user's text, or, with both
 * entries blank, cancels every pending update and clears the list.
 */
module FlatQuery {
  import opened Options
  import opened Text

  /** The access modes, numbered as `FUZZY, CLEAN, WHERE, DIRTY = xrange(4)`. */
  const Clean: nat := 1
  const Dirty: nat := 3

  /** The database types the pages know. */
  const Prokyon3: string := "Prokyon 3"
  const Ampache: string := "Ampache"

  /** One query of the table: how the user text goes in, and the SQL template. */
  datatype Entry = Entry(mode: nat, query: string)

  /** Per database type, the fuzzy-search query and the WHERE-clause query. */
  datatype Queries = Queries(fuzzy: Entry, where_: Entry)

  /**
   * The table as the page defines it: both types pass fuzzy text as query
   * parameters and paste WHERE text into the SQL. The SQL texts themselves
   * are arguments here.
   */
  function QueryTable(prokyonFuzzy: string, prokyonWhere: string, ampacheFuzzy: string, ampacheWhere: string): (r: map<string, Queries>)
    ensures r.Keys == {Prokyon3, Ampache}
    ensures forall t :: t in r ==> r[t].fuzzy.mode == Clean && r[t].where_.mode == Dirty
  {
    map[Prokyon3 := Queries(Entry(Clean, prokyonFuzzy), Entry(Dirty, prokyonWhere)),
        Ampache := Queries(Entry(Clean, ampacheFuzzy), Entry(Dirty, ampacheWhere))]
  }

  /**
   * What pressing the button does: nothing for an unknown database type or
   * an unknown access mode; cancel every pending update and clear the list
   * when both entries are blank; fail (TypeError or ValueError) when the
   * WHERE text cannot be formatted into its template, or when the template
   * uses a conversion this model does not cover; else send the request, as the
   * SQL and its parameters.
   */
  datatype Action =
    | Unsupported
    | ClearAll
    | UnknownMode(mode: nat)
    | FormatError
    | Request(sql: string, params: seq<string>)

  /** The parameters a CLEAN query is sent with: the text once per "(%s)". */
  function CleanParams(query: string, text: string): (r: seq<string>)
    ensures |r| == Count(query, Placeholder)
    ensures forall k :: 0 <= k < |r| ==> r[k] == text
  {
    var n := Count(query, Placeholder);
    Repeat([text], n)
  }

  /**
   * The SQL a DIRTY query is sent as: `query % (text,) * qty` parses as
   * `(query % (text,)) * qty`, the formatted query repeated once per
   * "(%s)". None where the formatting fails (TypeError or ValueError) or
   * uses a conversion other than `%s` and `%%`.
   */
  function DirtySql(query: string, text: string): (r: Option<string>)
    ensures r.None? <==> Interpolate(query, [text]).None?
    ensures r.Some? ==> |r.value| == |Interpolate(query, [text]).value| * Count(query, Placeholder)
    ensures r.Some? && Count(query, Placeholder) == 1 ==> r == Interpolate(query, [text])
  {
    match Interpolate(query, [text])
    case None => None
    case Some(q) => Some(Repeat(q, Count(query, Placeholder)))
  }

  function CbUpdate(table: map<string, Queries>, dbType: string, fuzzyText: string, whereText: string): (r: Action)
    ensures dbType !in table <==> r == Unsupported
    ensures dbType in table ==>
      (r == ClearAll <==> |Strip(fuzzyText)| == 0 && |Strip(whereText)| == 0)
    ensures dbType in table && |Strip(fuzzyText)| > 0 && table[dbType].fuzzy.mode == Clean ==>
      var q := table[dbType].fuzzy.query;
      r == Request(q, CleanParams(q, Strip(fuzzyText)))
    ensures dbType in table && |Strip(fuzzyText)| == 0 && |Strip(whereText)| > 0 && table[dbType].where_.mode == Dirty ==>
      var d := DirtySql(table[dbType].where_.query, Strip(whereText));
      r == (if d.None? then FormatError else Request(d.value, []))
    ensures r.UnknownMode? ==> r.mode != Clean && r.mode != Dirty
  {
    if dbType !in table then Unsupported
    else
      var fuzzy := Strip(fuzzyText);
      var where_ := Strip(whereText);
      if |fuzzy| == 0 && |where_| == 0 then ClearAll
      else
        var e := if |fuzzy| > 0 then table[dbType].fuzzy else table[dbType].where_;
        var text := if |fuzzy| > 0 then fuzzy else where_;
        if e.mode == Clean then Request(e.query, CleanParams(e.query, text))
        else if e.mode == Dirty then
          match DirtySql(e.query, text)
          case None => FormatError
          case Some(sql) => Request(sql, [])
        else UnknownMode(e.mode)
  }

  /**
   * A fuzzy template made of SQL pieces without '%' joined by "(%s)"
   * is sent with the stripped text once per joint, whichever database
   * type it belongs to.
   */
  lemma FuzzyParamsPerPlaceholder(pieces: seq<string>, fuzzyText: string, whereText: string)
    requires |pieces| > 0
    requires forall i :: 0 <= i < |pieces| ==> '%' !in pieces[i]
    requires |Strip(fuzzyText)| > 0
    ensures var q := Join(pieces, Placeholder);
      var t := QueryTable(q, "", q, "");
      && CbUpdate(t, Prokyon3, fuzzyText, whereText) == Request(q, Repeat([Strip(fuzzyText)], |pieces| - 1))
      && CbUpdate(t, Ampache, fuzzyText, whereText) == Request(q, Repeat([Strip(fuzzyText)], |pieces| - 1))
  {
    var q := Join(pieces, Placeholder);
    var t := QueryTable(q, "", q, "");
    CountJoin(pieces);
    assert t[Prokyon3].fuzzy == Entry(Clean, q) && t[Ampache].fuzzy == Entry(Clean, q);
    assert CleanParams(q, Strip(fuzzyText)) == Repeat([Strip(fuzzyText)], |pieces| - 1);
  }

  /**
   * A WHERE template `a(%s)b` with no other '%' sends the
   * stripped text pasted between the parentheses, once, with no parameters.
   */
  lemma WhereTextPasted(a: string, b: string, fuzzyText: string, whereText: string, dbType: string)
    requires '%' !in a && '%' !in b
    requires dbType == Prokyon3 || dbType == Ampache
    requires |Strip(fuzzyText)| == 0 && |Strip(whereText)| > 0
    ensures var t := QueryTable("", a + Placeholder + b, "", a + Placeholder + b);
      CbUpdate(t, dbType, fuzzyText, whereText) == Request(a + "(" + Strip(whereText) + ")" + b, [])
  {
    var q := a + Placeholder + b;
    var x := Strip(whereText);
    assert Join([a, b], Placeholder) == q;
    CountJoin([a, b]);
    assert q == (a + "(") + "%s" + (")" + b);
    InterpolateOne(a + "(", ")" + b, x);
    assert (a + "(") + x + (")" + b) == a + "(" + x + ")" + b;
  }

  /** Blank or whitespace-only entries clear the page whatever the database type's queries. */
  lemma BlankEntriesClear(table: map<string, Queries>, dbType: string, fuzzyText: string, whereText: string)
    requires dbType in table
    requires forall k :: 0 <= k < |fuzzyText| ==> IsSpace(fuzzyText[k])
    requires forall k :: 0 <= k < |whereText| ==> IsSpace(whereText[k])
    ensures CbUpdate(table, dbType, fuzzyText, whereText) == ClearAll
  {
    StripTrims(fuzzyText);
    StripTrims(whereText);
  }
}
