/**
 * The duration column of the song lists
 * (PageCommon._cell_secs_to_h_m_s in python/songdb.py): a length in
 * seconds shown as "d:hh:mm" from one day up, "h:mm:ss" from one hour
 * up, and "m:ss" below that.
 */
module Duration {
  import opened Options
  import opened Seqs
  import opened Text

  /**
   * The `divmod` chain: whole days, then hours, minutes and seconds within
   * them. Python's `divmod` floors, as Dafny's division by a positive
   * number does, so only the day count can be negative.
   */
  datatype Clock = Clock(days: int, hours: nat, minutes: nat, seconds: nat)

  function Split(v: int): (c: Clock)
    ensures c.hours < 24 && c.minutes < 60 && c.seconds < 60
    ensures ((c.days * 24 + c.hours) * 60 + c.minutes) * 60 + c.seconds == v
    ensures v >= 0 ==> c.days >= 0
    ensures c.seconds == v % 60
  {
    var m := v / 60;
    var h := m / 60;
    Clock(h / 24, h % 24, m % 60, v % 60)
  }

  /** The text the cell shows for `v` seconds. */
  function Show(v: int): string
  {
    Format(Split(v))
  }

  /** `"%dd:%02d:%02d"`, `"%d:%02d:%02d"` or `"%d:%02d"`, by the largest unit that is not zero. */
  function Format(c: Clock): string
    requires c.hours < 24 && c.minutes < 60 && c.seconds < 60
  {
    if c.days != 0 then IntToString(c.days) + "d:" + Pad2(c.hours) + ":" + Pad2(c.minutes)
    else if c.hours != 0 then IntToString(c.hours) + ":" + Pad2(c.minutes) + ":" + Pad2(c.seconds)
    else IntToString(c.minutes) + ":" + Pad2(c.seconds)
  }

  predicate AllDigits(s: string)
  {
    forall k :: 0 <= k < |s| ==> IsDigit(s[k])
  }

  predicate TwoDigits(s: string)
  {
    |s| == 2 && AllDigits(s)
  }

  /**
   * Reading a shown duration back, in seconds: "m:ss" and "h:mm:ss" give
   * the seconds, "Nd:hh:mm" the seconds of its whole minutes. None for
   * text of another shape.
   */
  function Read(s: string): Option<int>
  {
    match SplitLast(s, ':')
    case None => None
    case Some((a, z)) => if TwoDigits(z) then ReadFront(a, DigitsValue(z)) else None
  }

  /** What comes before the last field `z`: minutes alone, or two more fields. */
  function ReadFront(a: string, z: nat): Option<int>
  {
    match SplitLast(a, ':')
    case None => if |a| > 0 && AllDigits(a) then Some(DigitsValue(a) * 60 + z) else None
    case Some((b, y)) => if TwoDigits(y) then ReadHead(b, DigitsValue(y), z) else None
  }

  /** The leading field of a three-field text: days ("Nd") or hours. */
  function ReadHead(b: string, y: nat, z: nat): Option<int>
  {
    if |b| > 1 && Last(b) == 'd' && AllDigits(b[..|b| - 1]) then
      Some(((DigitsValue(b[..|b| - 1]) * 24 + y) * 60 + z) * 60)
    else if |b| > 0 && AllDigits(b) then
      Some((DigitsValue(b) * 60 + y) * 60 + z)
    else None
  }

  lemma NoColonInNumber(n: nat)
    ensures ':' !in NatToString(n) && 'd' !in NatToString(n)
  {
    var s := NatToString(n);
    forall k | 0 <= k < |s| ensures s[k] != ':' && s[k] != 'd' {
      assert IsDigit(s[k]);
    }
  }

  lemma NoColonInPad(n: nat)
    requires n < 100
    ensures ':' !in Pad2(n) && TwoDigits(Pad2(n))
  {
    var s := Pad2(n);
    assert s == [s[0], s[1]];
  }

  /** Text of the shape "Nd:yy:zz" reads as whole minutes in seconds. */
  lemma ReadDayForm(b: string, y: string, z: string, d: nat, h: nat, m: nat, w: int)
    requires |b| > 1 && Last(b) == 'd' && AllDigits(b[..|b| - 1]) && ':' !in b
    requires TwoDigits(y) && TwoDigits(z) && ':' !in y && ':' !in z
    requires DigitsValue(b[..|b| - 1]) == d && DigitsValue(y) == h && DigitsValue(z) == m
    requires w == ((d * 24 + h) * 60 + m) * 60
    ensures Read(b + [':'] + y + [':'] + z) == Some(w)
  {
    var a := b + [':'] + y;
    SplitLastJoin(a, ':', z);
    assert Read(a + [':'] + z) == ReadFront(a, m);
    SplitLastJoin(b, ':', y);
    assert ReadFront(a, m) == ReadHead(b, h, m);
  }

  lemma ReadHeadHours(b: string, h: nat, y: nat, z: nat, w: int)
    requires |b| > 0 && AllDigits(b) && DigitsValue(b) == h && w == (h * 60 + y) * 60 + z
    ensures ReadHead(b, y, z) == Some(w)
  {
    assert IsDigit(b[|b| - 1]);
  }

  /** Text of the shape "h:yy:zz" with a digits-only hour reads as seconds. */
  lemma ReadHourForm(b: string, y: string, z: string, h: nat, m: nat, sec: nat, w: int)
    requires |b| > 0 && AllDigits(b) && ':' !in b
    requires TwoDigits(y) && TwoDigits(z) && ':' !in y && ':' !in z
    requires DigitsValue(b) == h && DigitsValue(y) == m && DigitsValue(z) == sec
    requires w == (h * 60 + m) * 60 + sec
    ensures Read(b + [':'] + y + [':'] + z) == Some(w)
  {
    var a := b + [':'] + y;
    SplitLastJoin(a, ':', z);
    assert Read(a + [':'] + z) == ReadFront(a, sec);
    SplitLastJoin(b, ':', y);
    assert ReadFront(a, sec) == ReadHead(b, m, sec);
    ReadHeadHours(b, h, m, sec, w);
  }

  lemma ReadDays(d: nat, h: nat, m: nat, w: int)
    requires d > 0 && h < 24 && m < 60 && w == ((d * 24 + h) * 60 + m) * 60
    ensures Read(NatToString(d) + "d:" + Pad2(h) + ":" + Pad2(m)) == Some(w)
  {
    var ds := NatToString(d);
    var b := ds + "d";
    assert |b| > 1 && Last(b) == 'd' && AllDigits(b[..|b| - 1]) && ':' !in b && DigitsValue(b[..|b| - 1]) == d by {
      NoColonInNumber(d);
      NatToStringValue(d);
      assert b[..|b| - 1] == ds;
    }
    NoColonInPad(h);
    NoColonInPad(m);
    assert ds + "d:" + Pad2(h) + ":" + Pad2(m) == b + [':'] + Pad2(h) + [':'] + Pad2(m);
    ReadDayForm(b, Pad2(h), Pad2(m), d, h, m, w);
  }

  lemma ReadHours(h: nat, m: nat, sec: nat, w: int)
    requires h > 0 && m < 60 && sec < 60 && w == (h * 60 + m) * 60 + sec
    ensures Read(NatToString(h) + ":" + Pad2(m) + ":" + Pad2(sec)) == Some(w)
  {
    var hs := NatToString(h);
    NoColonInNumber(h);
    NatToStringValue(h);
    NoColonInPad(m);
    NoColonInPad(sec);
    assert hs + ":" + Pad2(m) + ":" + Pad2(sec) == hs + [':'] + Pad2(m) + [':'] + Pad2(sec);
    ReadHourForm(hs, Pad2(m), Pad2(sec), h, m, sec, w);
  }

  lemma ReadMinutes(m: nat, sec: nat, w: int)
    requires sec < 60 && w == m * 60 + sec
    ensures Read(NatToString(m) + ":" + Pad2(sec)) == Some(w)
  {
    var ms := NatToString(m);
    NoColonInNumber(m);
    NatToStringValue(m);
    NoColonInPad(sec);
    assert ms + ":" + Pad2(sec) == ms + [':'] + Pad2(sec);
    SplitLastJoin(ms, ':', Pad2(sec));
  }

  lemma SplitValue(v: int, c: Clock)
    requires v >= 0
    requires c.days >= 0 && c.hours < 24 && c.minutes < 60 && c.seconds < 60
    requires ((c.days * 24 + c.hours) * 60 + c.minutes) * 60 + c.seconds == v && c.seconds == v % 60
    ensures c.days != 0 ==> v >= 86400 && ((c.days * 24 + c.hours) * 60 + c.minutes) * 60 == v - v % 60
    ensures c.days == 0 ==> v < 86400 && (c.hours * 60 + c.minutes) * 60 + c.seconds == v
  {
  }

  /** From one day up the cell reads back as the seconds `w` of its whole minutes. */
  lemma FormatDaysReadsBack(c: Clock, w: int)
    requires c.days > 0 && c.hours < 24 && c.minutes < 60 && c.seconds < 60
    requires w == ((c.days * 24 + c.hours) * 60 + c.minutes) * 60
    ensures Read(Format(c)) == Some(w)
  {
    var s := NatToString(c.days) + "d:" + Pad2(c.hours) + ":" + Pad2(c.minutes);
    assert Format(c) == s by {
      assert IntToString(c.days) == NatToString(c.days);
    }
    assert Read(s) == Some(w) by {
      ReadDays(c.days, c.hours, c.minutes, w);
    }
  }

  /** From one hour up the cell reads back as its seconds `w`. */
  lemma FormatHoursReadsBack(c: Clock, w: int)
    requires c.days == 0 && 0 < c.hours < 24 && c.minutes < 60 && c.seconds < 60
    requires w == (c.hours * 60 + c.minutes) * 60 + c.seconds
    ensures Read(Format(c)) == Some(w)
  {
    var s := NatToString(c.hours) + ":" + Pad2(c.minutes) + ":" + Pad2(c.seconds);
    assert Format(c) == s by {
      assert IntToString(c.hours) == NatToString(c.hours);
    }
    assert Read(s) == Some(w) by {
      ReadHours(c.hours, c.minutes, c.seconds, w);
    }
  }

  /** Below an hour the cell reads back as its seconds `w`. */
  lemma FormatMinutesReadsBack(c: Clock, w: int)
    requires c.days == 0 && c.hours == 0 && c.minutes < 60 && c.seconds < 60
    requires w == c.minutes * 60 + c.seconds
    ensures Read(Format(c)) == Some(w)
  {
    var s := NatToString(c.minutes) + ":" + Pad2(c.seconds);
    assert Format(c) == s by {
      assert IntToString(c.minutes) == NatToString(c.minutes);
    }
    assert Read(s) == Some(w) by {
      ReadMinutes(c.minutes, c.seconds, w);
    }
  }

  /**
   * What the cell shows reads back as the duration, except that from one
   * day up the seconds are not shown.
   */
  lemma ShowReadsBack(v: int)
    requires v >= 0
    ensures Read(Show(v)) == Some(if v >= 86400 then v - v % 60 else v)
  {
    var c := Split(v);
    assert Show(v) == Format(c);
    ClockReadsBack(v, c);
  }

  /** A clock reading of `v` seconds, shown, reads back by its largest unit. */
  lemma ClockReadsBack(v: int, c: Clock)
    requires v >= 0
    requires c.days >= 0 && c.hours < 24 && c.minutes < 60 && c.seconds < 60
    requires ((c.days * 24 + c.hours) * 60 + c.minutes) * 60 + c.seconds == v && c.seconds == v % 60
    ensures Read(Format(c)) == Some(if v >= 86400 then v - v % 60 else v)
  {
    SplitValue(v, c);
    if c.days != 0 {
      FormatDaysReadsBack(c, v - v % 60);
    } else if c.hours != 0 {
      FormatHoursReadsBack(c, v);
    } else {
      FormatMinutesReadsBack(c, v);
    }
  }

  /** Below an hour the cell shows minutes and two-digit seconds. */
  lemma ShortDurations(v: int)
    requires 0 <= v < 3600
    ensures Show(v) == NatToString(v / 60) + ":" + Pad2(v % 60)
  {
  }
}
