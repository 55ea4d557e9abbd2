/**
 * The file path transform of the database preferences
 * (PrefsControls._cb_bind in python/songdb.py): a number of leading
 * characters to delete from every stored path and a text to put in
 * their place, so that paths from another machine's database point into
 * the local file system.
 */
module PathTransform {
  import opened Text

  /** `s[n:]` for `n >= 0`: empty once `n` reaches the length. */
  function Drop(s: string, n: nat): (r: string)
    ensures |r| == if n < |s| then |s| - n else 0
    ensures forall k :: 0 <= k < |r| ==> r[k] == s[n + k]
  {
    if n < |s| then s[n..] else ""
  }

  /**
   * The transform built from the spin button's count and the entry's
   * text (stripped): the identity when both are blank, else the prefix
   * followed by the path with its first `delQty` characters dropped.
   */
  function MakeTransform(delQty: nat, addText: string): (f: string -> string)
    ensures forall s :: f(s) == Strip(addText) + Drop(s, delQty)
  {
    var prefix := Strip(addText);
    if delQty != 0 || |prefix| > 0 then
      (s: string) => prefix + Drop(s, delQty)
    else
      assert forall s: string :: Drop(s, 0) == s;
      (s: string) => s
  }

  /** With nothing to delete and nothing to add, paths pass unchanged. */
  lemma BlankTransformIsIdentity(addText: string, s: string)
    requires forall k :: 0 <= k < |addText| ==> IsSpace(addText[k])
    ensures MakeTransform(0, addText)(s) == s
  {
    StripTrims(addText);
  }

  /**
   * A path that starts with a mount point of `delQty` characters comes out
   * under the new prefix, with the rest of the path kept.
   */
  lemma TransformRemounts(delQty: nat, addText: string, mount: string, rest: string)
    requires |mount| == delQty
    ensures MakeTransform(delQty, addText)(mount + rest) == Strip(addText) + rest
  {
    assert Drop(mount + rest, delQty) == rest;
  }

  /**
   * Re-mounting twice is re-mounting once: dropping the first prefix again
   * and adding a second gives what the second alone gives.
   */
  lemma TransformsCompose(delQty: nat, first: string, second: string, s: string)
    ensures var f := MakeTransform(delQty, first);
      MakeTransform(|Strip(first)|, second)(f(s)) == MakeTransform(delQty, second)(s)
  {
    var p := Strip(first);
    TransformRemounts(|p|, second, p, Drop(s, delQty));
  }
}
