/**
 * The few Python string operations the modelled code relies on:
 * `str.strip()`, `str.count`, `%`-formatting with `%s`, repetition with
 * `*`, decimal rendering of integers and `int()` parsing of a string.
 */
module Text {
  import opened Options
  import opened Seqs

  /** The characters `str.strip()` removes (Python 2 byte-string whitespace). */
  predicate IsSpace(c: char)
  {
    c == ' ' || c == '\t' || c == '\n' || c == '\r' || c == '\U{000B}' || c == '\U{000C}'
  }

  /** How many whitespace characters `s` starts with. */
  function LeadingSpaces(s: string): (n: nat)
    ensures n <= |s|
    ensures forall k :: 0 <= k < n ==> IsSpace(s[k])
    ensures n < |s| ==> !IsSpace(s[n])
  {
    if |s| > 0 && IsSpace(s[0]) then 1 + LeadingSpaces(s[1..]) else 0
  }

  /** `str.lstrip()`: the suffix left after dropping leading whitespace. */
  function LStrip(s: string): (r: string)
    ensures |r| <= |s| && r == s[|s| - |r|..]
    ensures forall k :: 0 <= k < |s| - |r| ==> IsSpace(s[k])
    ensures |r| > 0 ==> !IsSpace(r[0])
  {
    s[LeadingSpaces(s)..]
  }

  /** `str.rstrip()`: the prefix left after dropping trailing whitespace. */
  function RStrip(s: string): (r: string)
    ensures |r| <= |s| && r == s[..|r|]
    ensures forall k :: |r| <= k < |s| ==> IsSpace(s[k])
    ensures |r| > 0 ==> !IsSpace(Last(r))
  {
    if |s| > 0 && IsSpace(Last(s)) then
      var r := RStrip(s[..|s| - 1]);
      assert s[..|s| - 1][..|r|] == s[..|r|];
      assert forall k :: |r| <= k < |s| ==> IsSpace(s[k]) by {
        forall k | |r| <= k < |s| ensures IsSpace(s[k]) {
          if k < |s| - 1 {
            assert s[k] == s[..|s| - 1][k];
          }
        }
      }
      r
    else s
  }

  /** `str.strip()`. */
  function Strip(s: string): string
  {
    RStrip(LStrip(s))
  }

  /** What `strip` removes is whitespace padding, and what it keeps has none at either end. */
  lemma StripTrims(s: string)
    ensures var r := Strip(s);
      && (|r| == 0 <==> forall k :: 0 <= k < |s| ==> IsSpace(s[k]))
      && (|r| > 0 ==> !IsSpace(r[0]) && !IsSpace(Last(r)))
  {
    var l := LStrip(s);
    var r := Strip(s);
    if |r| == 0 {
      assert |l| == 0;
    } else {
      assert r[0] == l[0];
    }
  }

  /** Stripping text that is already free of padding at both ends changes nothing. */
  lemma StripTrimmed(s: string)
    requires |s| > 0 ==> !IsSpace(s[0]) && !IsSpace(Last(s))
    ensures Strip(s) == s
  {
  }

  /** Padding then stripping gives back the text. */
  lemma {:induction false} StripPadded(a: string, x: string, b: string)
    requires forall k :: 0 <= k < |a| ==> IsSpace(a[k])
    requires forall k :: 0 <= k < |b| ==> IsSpace(b[k])
    requires |x| > 0 && !IsSpace(x[0]) && !IsSpace(Last(x))
    ensures Strip(a + x + b) == x
  {
    LStripSpaces(a, x + b);
    assert a + x + b == a + (x + b);
    RStripSpaces(x, b);
  }

  lemma LStripSpaces(a: string, y: string)
    requires forall k :: 0 <= k < |a| ==> IsSpace(a[k])
    requires |y| > 0 && !IsSpace(y[0])
    ensures LStrip(a + y) == y
  {
    var s := a + y;
    var n := LeadingSpaces(s);
    assert s[|a|] == y[0];
    assert forall k :: 0 <= k < |a| ==> s[k] == a[k];
    assert s[|a|..] == y;
  }

  lemma {:induction false} RStripSpaces(x: string, b: string)
    requires forall k :: 0 <= k < |b| ==> IsSpace(b[k])
    requires |x| > 0 && !IsSpace(Last(x))
    ensures RStrip(x + b) == x
    decreases |b|
  {
    if |b| > 0 {
      assert (x + b)[..|x + b| - 1] == x + b[..|b| - 1];
      RStripSpaces(x, b[..|b| - 1]);
    } else {
      assert x + b == x;
    }
  }

  // ---------------------------------------------------------------------
  // Splitting at the last separator

  /** The index of the last occurrence of `c` in `s`, if any. */
  function LastIndexOf(s: string, c: char): (r: Option<nat>)
    ensures r.None? <==> c !in s
    ensures r.Some? ==> r.value < |s| && s[r.value] == c && c !in s[r.value + 1..]
  {
    if |s| == 0 then None
    else if Last(s) == c then Some(|s| - 1)
    else
      var r := LastIndexOf(s[..|s| - 1], c);
      assert s == s[..|s| - 1] + [Last(s)];
      if r.Some? then
        assert s[r.value + 1..] == s[..|s| - 1][r.value + 1..] + [Last(s)];
        r
      else r
  }

  /**
   * `s.rsplit(c, 1)` unpacked into two names: the text before and after
   * the last `c`; None when `s` holds no `c`, where the unpacking raises
   * ValueError.
   */
  function SplitLast(s: string, c: char): (r: Option<(string, string)>)
    ensures r.None? <==> c !in s
    ensures r.Some? ==> r.value.0 + [c] + r.value.1 == s && c !in r.value.1
  {
    match LastIndexOf(s, c)
    case None => None
    case Some(i) =>
      assert s == s[..i] + [c] + s[i + 1..];
      Some((s[..i], s[i + 1..]))
  }

  /** Splitting `x + c + y` at its last `c` gives back `x` and `y` when `y` holds no `c`. */
  lemma SplitLastJoin(x: string, c: char, y: string)
    requires c !in y
    ensures SplitLast(x + [c] + y, c) == Some((x, y))
  {
    var s := x + [c] + y;
    assert s[|x|] == c;
    var i := LastIndexOf(s, c).value;
    assert s[..|x|] == x && s[|x| + 1..] == y;
  }

  // ---------------------------------------------------------------------
  // Counting, repetition and `%`-formatting

  /** `s.count(pat)`: non-overlapping occurrences, scanning left to right. */
  function Count(s: string, pat: string): nat
    requires |pat| > 0
    decreases |s|
  {
    if |s| < |pat| then 0
    else if s[..|pat|] == pat then 1 + Count(s[|pat|..], pat)
    else Count(s[1..], pat)
  }

  /** The placeholder the query tables mark user text with. */
  const Placeholder: string := "(%s)"

  /** `sep.join(pieces)`. */
  function Join(pieces: seq<string>, sep: string): string
    requires |pieces| > 0
  {
    if |pieces| == 1 then pieces[0] else pieces[0] + sep + Join(pieces[1..], sep)
  }

  /**
   * Every placeholder has a '%' second, so text without one cannot hold a
   * placeholder nor start one, provided what follows does not begin with
   * a '%' either.
   */
  lemma {:induction false} CountSkips(a: string, rest: string)
    requires '%' !in a
    requires |rest| > 0 ==> rest[0] != '%'
    ensures Count(a + rest, Placeholder) == Count(rest, Placeholder)
    decreases |a|
  {
    if |a| > 0 {
      var s := a + rest;
      if |s| >= |Placeholder| {
        if |a| >= 2 {
          assert s[1] == a[1];
        } else {
          assert s[1] == rest[0];
        }
        assert s[..|Placeholder|][1] == s[1];
      }
      assert s[1..] == a[1..] + rest;
      CountSkips(a[1..], rest);
    } else {
      assert a + rest == rest;
    }
  }

  /**
   * A template made of pieces without '%' joined by the placeholder holds
   * exactly one placeholder per joint.
   */
  lemma {:induction false} CountJoin(pieces: seq<string>)
    requires |pieces| > 0
    requires forall i :: 0 <= i < |pieces| ==> '%' !in pieces[i]
    ensures Count(Join(pieces, Placeholder), Placeholder) == |pieces| - 1
    decreases |pieces|
  {
    if |pieces| == 1 {
      CountSkips(pieces[0], "");
      assert pieces[0] + "" == pieces[0];
    } else {
      var tail := Join(pieces[1..], Placeholder);
      CountJoin(pieces[1..]);
      assert Join(pieces, Placeholder) == pieces[0] + (Placeholder + tail);
      CountSkips(pieces[0], Placeholder + tail);
      var s := Placeholder + tail;
      assert s[..|Placeholder|] == Placeholder;
      assert s[|Placeholder|..] == tail;
    }
  }

  /** `x * n` for a sequence `x`: `n` copies of it, concatenated. */
  function Repeat<T>(x: seq<T>, n: nat): (r: seq<T>)
    ensures |r| == |x| * n
    ensures n == 1 ==> r == x
    ensures |x| == 1 ==> forall k :: 0 <= k < |r| ==> r[k] == x[0]
  {
    if n == 0 then [] else Repeat(x, n - 1) + x
  }

  /**
   * `t % tuple(args)` where the template uses only `%s` and `%%`: each `%s`
   * takes the next argument, `%%` is a literal '%'. None where Python fails
   * (TypeError for too few arguments or arguments left over, ValueError
   * for an incomplete or unknown conversion) and also where the template
   * uses a conversion other than `%s` and `%%`, which this model does not
   * cover.
   */
  function Interpolate(t: string, args: seq<string>): (r: Option<string>)
    decreases |t|
  {
    if |t| == 0 then
      if |args| == 0 then Some("") else None
    else if t[0] != '%' then
      match Interpolate(t[1..], args)
      case None => None
      case Some(u) => Some([t[0]] + u)
    else if |t| >= 2 && t[1] == '%' then
      match Interpolate(t[2..], args)
      case None => None
      case Some(u) => Some("%" + u)
    else if |t| >= 2 && t[1] == 's' && |args| > 0 then
      match Interpolate(t[2..], args[1..])
      case None => None
      case Some(u) => Some(args[0] + u)
    else None
  }

  lemma {:induction false} InterpolatePlain(a: string, rest: string, args: seq<string>)
    requires '%' !in a
    ensures Interpolate(rest, args).None? ==> Interpolate(a + rest, args).None?
    ensures Interpolate(rest, args).Some? ==>
      Interpolate(a + rest, args) == Some(a + Interpolate(rest, args).value)
    decreases |a|
  {
    if |a| > 0 {
      assert (a + rest)[0] == a[0] && (a + rest)[1..] == a[1..] + rest;
      InterpolatePlain(a[1..], rest, args);
      if Interpolate(rest, args).Some? {
        var u := Interpolate(rest, args).value;
        assert [a[0]] + (a[1..] + u) == a + u;
      }
    } else {
      assert a + rest == rest;
      if Interpolate(rest, args).Some? {
        assert a + Interpolate(rest, args).value == Interpolate(rest, args).value;
      }
    }
  }

  /**
   * A template with one `%s` and no other '%' formats one argument by
   * putting it in place of the `%s`, and fails with none or two.
   */
  lemma InterpolateOne(a: string, b: string, x: string)
    requires '%' !in a && '%' !in b
    ensures Interpolate(a + "%s" + b, [x]) == Some(a + x + b)
    ensures Interpolate(a + "%s" + b, []) == None
    ensures Interpolate(a + "%s" + b, [x, x]) == None
  {
    assert a + "%s" + b == a + ("%s" + b);
    InterpolatePlain(a, "%s" + b, [x]);
    InterpolatePlain(a, "%s" + b, []);
    InterpolatePlain(a, "%s" + b, [x, x]);
    var t := "%s" + b;
    assert t[0] == '%' && t[1] == 's' && t[2..] == b;
    InterpolatePlain(b, "", []);
    InterpolatePlain(b, "", [x]);
    assert b + "" == b;
    assert [x][1..] == [];
    assert [x, x][1..] == [x];
    assert Interpolate(b, []) == Some(b);
    assert Interpolate(t, [x]) == Some(x + b);
    assert a + (x + b) == a + x + b;
  }

  // ---------------------------------------------------------------------
  // Decimal numbers

  function DigitChar(d: nat): char
    requires d < 10
  {
    ('0' as int + d) as char
  }

  predicate IsDigit(c: char)
  {
    '0' <= c <= '9'
  }

  function DigitValue(c: char): nat
    requires IsDigit(c)
  {
    (c as int - '0' as int) as nat
  }

  /** `"%d" % n` for `n >= 0`: decimal digits, no leading zeros, "0" for zero. */
  function NatToString(n: nat): (r: string)
    ensures |r| > 0 && forall k :: 0 <= k < |r| ==> IsDigit(r[k])
    ensures |r| > 1 ==> r[0] != '0'
    decreases n
  {
    if n < 10 then [DigitChar(n)] else NatToString(n / 10) + [DigitChar(n % 10)]
  }

  /** The value of a string of decimal digits. */
  function DigitsValue(s: string): nat
    requires forall k :: 0 <= k < |s| ==> IsDigit(s[k])
  {
    if |s| == 0 then 0 else 10 * DigitsValue(s[..|s| - 1]) + DigitValue(Last(s))
  }

  /** Reading back what NatToString wrote gives the number. */
  lemma {:induction false} NatToStringValue(n: nat)
    ensures DigitsValue(NatToString(n)) == n
    decreases n
  {
    var s := NatToString(n);
    if n >= 10 {
      NatToStringValue(n / 10);
      assert s[..|s| - 1] == NatToString(n / 10);
    }
  }

  /** `"%02d" % n` for `0 <= n < 100`: always two digits. */
  function Pad2(n: nat): (r: string)
    requires n < 100
    ensures |r| == 2 && IsDigit(r[0]) && IsDigit(r[1])
    ensures DigitsValue(r) == n
  {
    var r := [DigitChar(n / 10), DigitChar(n % 10)];
    assert r[..1] == [r[0]] && [r[0]][..0] == [];
    assert DigitsValue([r[0]]) == n / 10;
    r
  }

  /**
   * Python 2's `int(s)` for a base-10 string: surrounding whitespace is
   * ignored, an optional sign may lead and may itself be followed by
   * blanks, then at least one digit and nothing else; None where Python
   * raises ValueError.
   */
  function ParseInt(s: string): (r: Option<int>)
  {
    ParseTrimmed(Strip(s))
  }

  /** `int` of text already stripped of surrounding whitespace. */
  function ParseTrimmed(t: string): (r: Option<int>)
  {
    if |t| > 0 && (t[0] == '-' || t[0] == '+') then
      var ds := LStrip(t[1..]);
      if |ds| > 0 && forall k :: 0 <= k < |ds| ==> IsDigit(ds[k]) then
        var v: int := DigitsValue(ds);
        Some(if t[0] == '-' then -v else v)
      else None
    else if |t| > 0 && forall k :: 0 <= k < |t| ==> IsDigit(t[k]) then
      Some(DigitsValue(t))
    else None
  }

  /** `int` reads back what `"%d"` writes, with or without surrounding blanks. */
  lemma ParseIntNatToString(n: nat, a: string, b: string)
    requires forall k :: 0 <= k < |a| ==> IsSpace(a[k])
    requires forall k :: 0 <= k < |b| ==> IsSpace(b[k])
    ensures ParseInt(a + NatToString(n) + b) == Some(n)
  {
    var s := NatToString(n);
    assert !IsSpace(s[0]) && !IsSpace(Last(s)) by {
      assert IsDigit(s[0]) && IsDigit(s[|s| - 1]);
    }
    StripPadded(a, s, b);
    NatToStringValue(n);
    ParseIntOfDigits(a + s + b, s);
  }

  /** Text that strips to an unsigned run of digits reads as their value. */
  lemma ParseIntOfDigits(s: string, t: string)
    requires Strip(s) == t && |t| > 0 && forall k :: 0 <= k < |t| ==> IsDigit(t[k])
    ensures ParseInt(s) == Some(DigitsValue(t))
  {
    assert IsDigit(t[0]);
  }

  /** Text with a character that is neither a digit, a sign nor whitespace is no integer. */
  lemma ParseIntRejects(s: string, k: nat)
    requires k < |s| && !IsDigit(s[k]) && !IsSpace(s[k]) && s[k] != '-' && s[k] != '+'
    ensures ParseInt(s) == None
  {
    var l := LStrip(s);
    var t := Strip(s);
    var i := |s| - |l|;
    // s[k] is not whitespace, so it survives both strips at position k - i of t
    assert k >= i;
    assert l[k - i] == s[k];
    assert k - i < |t|;
    assert t[k - i] == s[k];
    if |t| > 0 && (t[0] == '-' || t[0] == '+') {
      assert k - i > 0;
      var u := t[1..];
      assert u[k - i - 1] == s[k];
      // blanks after the sign are dropped, so s[k] is still in the digit part
      var ds := LStrip(u);
      var j := |u| - |ds|;
      assert k - i - 1 >= j;
      assert ds[k - i - 1 - j] == s[k];
    }
  }

  /** `"%d" % i`. */
  function IntToString(i: int): (r: string)
    ensures i >= 0 ==> r == NatToString(i)
    ensures i < 0 ==> r == "-" + NatToString(-i)
  {
    if i < 0 then "-" + NatToString(-i) else NatToString(i)
  }

  /** `int` reads back what `"%d"` writes, negative numbers included. */
  lemma IntToStringReadsBack(i: int)
    ensures ParseInt(IntToString(i)) == Some(i)
  {
    if i < 0 {
      var n: nat := -i;
      assert IntToString(i) == "-" + NatToString(n) by {
        assert -i == n;
      }
      NegativeReadsBack(n);
    } else {
      PositiveReadsBack(i);
    }
  }

  lemma NegativeReadsBack(n: nat)
    ensures ParseInt("-" + NatToString(n)) == Some(-(n as int))
  {
    var d := NatToString(n);
    var t := "-" + d;
    assert IsDigit(d[0]) && IsDigit(d[|d| - 1]);
    assert Last(t) == d[|d| - 1];
    StripTrimmed(t);
    assert t == ['-'] + "" + d;
    NatToStringValue(n);
    ParseTrimmedSigned('-', "", d);
  }

  lemma PositiveReadsBack(n: nat)
    ensures ParseInt(NatToString(n)) == Some(n)
  {
    var d := NatToString(n);
    ParseIntNatToString(n, "", "");
    assert "" + d + "" == d;
  }

  /**
   * A sign, blanks and then decimal digits, all padded with blanks, reads
   * as the signed value of the digits.
   */
  lemma ParseIntSigned(sign: char, a: string, b: string, d: string, c: string)
    requires sign == '-' || sign == '+'
    requires forall k :: 0 <= k < |a| ==> IsSpace(a[k])
    requires forall k :: 0 <= k < |b| ==> IsSpace(b[k])
    requires |d| > 0 && forall k :: 0 <= k < |d| ==> IsDigit(d[k])
    requires forall k :: 0 <= k < |c| ==> IsSpace(c[k])
    ensures ParseInt(a + [sign] + b + d + c) == Some(if sign == '-' then -(DigitsValue(d) as int) else DigitsValue(d))
  {
    StripSigned(sign, a, b, d, c);
    ParseTrimmedSigned(sign, b, d);
  }

  lemma StripSigned(sign: char, a: string, b: string, d: string, c: string)
    requires sign == '-' || sign == '+'
    requires forall k :: 0 <= k < |a| ==> IsSpace(a[k])
    requires |d| > 0 && IsDigit(d[|d| - 1])
    requires forall k :: 0 <= k < |c| ==> IsSpace(c[k])
    ensures Strip(a + [sign] + b + d + c) == [sign] + b + d
  {
    var x := [sign] + b + d;
    assert Last(x) == d[|d| - 1];
    AppendAssoc(a, [sign], b);
    AppendAssoc(a, [sign] + b, d);
    StripPadded(a, x, c);
  }

  lemma ParseTrimmedSigned(sign: char, b: string, d: string)
    requires sign == '-' || sign == '+'
    requires forall k :: 0 <= k < |b| ==> IsSpace(b[k])
    requires |d| > 0 && forall k :: 0 <= k < |d| ==> IsDigit(d[k])
    ensures ParseTrimmed([sign] + b + d) == Some(if sign == '-' then -(DigitsValue(d) as int) else DigitsValue(d))
  {
    var t := [sign] + b + d;
    ConsTail(sign, b, d);
    assert LStrip(t[1..]) == d by {
      assert !IsSpace(d[0]) by {
        assert IsDigit(d[0]);
      }
      LStripSpaces(b, d);
    }
    ParseTrimmedSignedDigits(t, d);
  }

  lemma ParseTrimmedSignedDigits(t: string, d: string)
    requires |t| > 0 && (t[0] == '-' || t[0] == '+') && LStrip(t[1..]) == d
    requires |d| > 0 && forall k :: 0 <= k < |d| ==> IsDigit(d[k])
    ensures ParseTrimmed(t) == Some(if t[0] == '-' then -(DigitsValue(d) as int) else DigitsValue(d))
  {
  }
}
