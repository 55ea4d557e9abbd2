/**
 * The "Hostname[:Port]" setting as the database worker reads it
 * (DBAccessor.__init__ in python/songdb.py): the text after the last ':'
 * is the port if `int` accepts it; otherwise the whole text is the host
 * name and the port is MySQL's default.
 */
module HostPort {
  import opened Options
  import opened Text

  /** The port MySQL listens on by default. */
  const DefaultPort: int := 3306

  datatype Address = Address(host: string, port: int)

  /**
   * `rsplit(":", 1)` and `int(port)`, falling back to the whole text and
   * port 3306 where either raises ValueError.
   */
  function ParseAddress(s: string): (r: Address)
    ensures r.host == s || (|r.host| < |s| && s[..|r.host|] == r.host && s[|r.host|] == ':')
    ensures r.host != s ==> ':' !in s[|r.host| + 1..] && ParseInt(s[|r.host| + 1..]) == Some(r.port)
    ensures r.host == s ==> r.port == DefaultPort
    ensures r.host == s && ':' in s ==> ParseInt(SplitLast(s, ':').value.1).None?
  {
    match SplitLast(s, ':')
    case None => Address(s, DefaultPort)
    case Some((host, port)) =>
      assert s == host + ":" + port;
      assert s[..|host|] == host && s[|host| + 1..] == port;
      match ParseInt(port)
      case None => Address(s, DefaultPort)
      case Some(p) => Address(host, p)
  }

  /**
   * A host name, ':' and a port number, the number possibly padded with
   * blanks, read back as that host and port; the host name may itself
   * hold colons.
   */
  lemma ParseAddressRoundTrip(host: string, n: nat, a: string, b: string)
    requires forall k :: 0 <= k < |a| ==> IsSpace(a[k])
    requires forall k :: 0 <= k < |b| ==> IsSpace(b[k])
    ensures ParseAddress(host + ":" + (a + NatToString(n) + b)) == Address(host, n)
  {
    var port := a + NatToString(n) + b;
    assert ':' !in port by {
      var d := NatToString(n);
      forall k | 0 <= k < |port| ensures port[k] != ':' {
        if k < |a| {
          assert port[k] == a[k];
        } else if k < |a| + |d| {
          assert port[k] == d[k - |a|] && IsDigit(d[k - |a|]);
        } else {
          assert port[k] == b[k - |a| - |d|];
        }
      }
    }
    SplitLastJoin(host, ':', port);
    ParseIntNatToString(n, a, b);
  }

  /**
   * A signed port, blanks allowed after the sign as Python 2's `int`
   * allows them, is taken as the port, negative or not: "db:- 1" is host
   * "db" on port -1.
   */
  lemma SignedPortAccepted(host: string, sign: char, b: string, d: string)
    requires sign == '-' || sign == '+'
    requires forall k :: 0 <= k < |b| ==> IsSpace(b[k])
    requires |d| > 0 && forall k :: 0 <= k < |d| ==> IsDigit(d[k])
    ensures ParseAddress(host + ":" + ([sign] + b + d))
         == Address(host, if sign == '-' then -(DigitsValue(d) as int) else DigitsValue(d))
  {
    SignedPortText(sign, b, d);
    SplitLastJoin(host, ':', [sign] + b + d);
  }

  lemma SignedPortText(sign: char, b: string, d: string)
    requires sign == '-' || sign == '+'
    requires forall k :: 0 <= k < |b| ==> IsSpace(b[k])
    requires |d| > 0 && forall k :: 0 <= k < |d| ==> IsDigit(d[k])
    ensures ':' !in [sign] + b + d
    ensures ParseInt([sign] + b + d) == Some(if sign == '-' then -(DigitsValue(d) as int) else DigitsValue(d))
  {
    NoColonInSigned(sign, b, d);
    StripSignedTrimmed(sign, b, d);
    ParseTrimmedSigned(sign, b, d);
  }

  lemma NoColonInSigned(sign: char, b: string, d: string)
    requires sign == '-' || sign == '+'
    requires forall k :: 0 <= k < |b| ==> IsSpace(b[k])
    requires forall k :: 0 <= k < |d| ==> IsDigit(d[k])
    ensures ':' !in [sign] + b + d
  {
    var port := [sign] + b + d;
    forall k | 0 <= k < |port| ensures port[k] != ':' {
      if k == 0 {
        assert port[k] == sign;
      } else if k < 1 + |b| {
        assert port[k] == b[k - 1];
      } else {
        assert port[k] == d[k - 1 - |b|] && IsDigit(d[k - 1 - |b|]);
      }
    }
  }

  lemma StripSignedTrimmed(sign: char, b: string, d: string)
    requires sign == '-' || sign == '+'
    requires |d| > 0 && IsDigit(d[|d| - 1])
    ensures Strip([sign] + b + d) == [sign] + b + d
  {
    var port := [sign] + b + d;
    assert port[|port| - 1] == d[|d| - 1];
    StripTrimmed(port);
  }

  /** Without a ':' the whole text is the host, on the default port. */
  lemma NoColonMeansDefaultPort(s: string)
    requires ':' !in s
    ensures ParseAddress(s) == Address(s, DefaultPort)
  {
  }

  /**
   * A port part holding a character that `int` refuses makes the whole
   * text, colon included, the host name.
   */
  lemma BadPortKeepsWholeText(host: string, port: string, k: nat)
    requires ':' !in port
    requires k < |port| && !IsDigit(port[k]) && !IsSpace(port[k]) && port[k] != '-' && port[k] != '+'
    ensures ParseAddress(host + ":" + port) == Address(host + ":" + port, DefaultPort)
  {
    SplitLastJoin(host, ':', port);
    ParseIntRejects(port, k);
  }
}
