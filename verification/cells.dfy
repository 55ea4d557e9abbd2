/**
 * The bitrate column of both pages (PageCommon._cell_k in
 * python/songdb.py): Prokyon 3 stores kilobits per second, Ampache bits
 * per second, and the cell shows kilobits with a "k" suffix.
 */
module Cells {
  import opened Options
  import opened Text

  /**
   * What the renderer shows: a text the cell function sets, or, when it
   * sets none, the stored number the column is bound to.
   */
  datatype Shown = Label(text: string) | Stored

  /**
   * `_cell_k`. As written the Prokyon 3 branch compares the database type
   * with "P3", a name no database is handed over as; `fixed` compares it
   * with "Prokyon 3" instead.
   */
  function BitrateCell(bitrate: int, dbType: string, fixed: bool): (r: Shown)
    ensures bitrate == 0 ==> r == Label("")
    ensures bitrate != 0 && dbType == "Ampache" ==> (r.Label? <==> bitrate > 9999)
    ensures !fixed && dbType == "Prokyon 3" ==> (r == Stored <==> bitrate != 0)
    ensures fixed && dbType == "Prokyon 3" ==> r.Label?
    ensures dbType != "Prokyon 3" && dbType != "Ampache" && dbType != "P3" ==> (r == Stored <==> bitrate != 0)
  {
    if bitrate == 0 then Label("")
    else if dbType == (if fixed then "Prokyon 3" else "P3") then Label(IntToString(bitrate) + "k")
    else if bitrate > 9999 && dbType == "Ampache" then Label(IntToString(bitrate / 1000) + "k")
    else Stored
  }

  /** A count of kilobits followed by "k": the digits before the suffix read back as the count. */
  lemma KiloLabel(n: nat)
    ensures var t := NatToString(n) + "k";
      |t| > 1 && t[|t| - 1] == 'k' && ParseInt(t[..|t| - 1]) == Some(n)
  {
    var s := NatToString(n);
    assert (s + "k")[..|s|] == s;
    ParseIntNatToString(n, "", "");
    assert "" + s + "" == s;
  }

  /**
   * An Ampache bitrate above 9999 bit/s shows as its whole kilobits
   * followed by "k": the number before the suffix reads back as
   * `bitrate // 1000`.
   */
  lemma AmpacheKilobits(bitrate: int, fixed: bool)
    requires bitrate > 9999
    ensures var r := BitrateCell(bitrate, "Ampache", fixed);
      && r.Label? && |r.text| > 1 && r.text[|r.text| - 1] == 'k'
      && ParseInt(r.text[..|r.text| - 1]) == Some(bitrate / 1000)
  {
    var n: nat := bitrate / 1000;
    assert BitrateCell(bitrate, "Ampache", fixed) == Label(NatToString(n) + "k");
    KiloLabel(n);
  }

  /**
   * As written a Prokyon 3 bitrate never gets its "k": the cell shows the
   * stored number. Corrected, it shows the stored kilobits with the suffix.
   */
  lemma ProkyonKilobits(bitrate: int)
    requires bitrate > 0
    ensures BitrateCell(bitrate, "Prokyon 3", false) == Stored
    ensures var r := BitrateCell(bitrate, "Prokyon 3", true);
      && r.Label? && |r.text| > 1 && r.text[|r.text| - 1] == 'k'
      && ParseInt(r.text[..|r.text| - 1]) == Some(bitrate)
  {
    assert BitrateCell(bitrate, "Prokyon 3", true) == Label(NatToString(bitrate) + "k");
    KiloLabel(bitrate);
  }
}
