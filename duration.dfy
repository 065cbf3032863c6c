/**
 * `format_timedelta`: the "in 1h 5m 3s" text of the spawn panel.
 *
 * The seconds are split into hours, minutes and seconds and the leading zero
 * units are dropped: "1h 0m 5s", "4m 0s", "0s". The panel only ever formats a
 * spawn that is still ahead, so only non-negative durations are modelled.
 * ParseTimedelta reads such a text back; the round trip shows that the text
 * denotes exactly the duration it was made from.
 */
module Duration {
  import opened Optional

  predicate IsDigit(c: char)
  {
    '0' <= c <= '9'
  }

  predicate AllDigits(s: string)
  {
    forall i :: 0 <= i < |s| ==> IsDigit(s[i])
  }

  function DigitChar(d: int): (c: char)
    requires 0 <= d < 10
    ensures IsDigit(c)
  {
    ('0' as int + d) as char
  }

  /** `str(n)`: decimal digits, no leading zeros. */
  function Decimal(n: nat): (s: string)
    ensures |s| >= 1 && AllDigits(s)
    ensures s[0] == '0' <==> n == 0
    decreases n
  {
    if n < 10 then [DigitChar(n)]
    else
      var front := Decimal(n / 10);
      front + [DigitChar(n % 10)]
  }

  /** The number a string of decimal digits stands for. */
  function DigitsValue(s: string): nat
    requires AllDigits(s)
  {
    if s == [] then 0
    else DigitsValue(s[..|s| - 1]) * 10 + (s[|s| - 1] as int - '0' as int)
  }

  lemma {:induction false} DecimalValue(n: nat)
    ensures DigitsValue(Decimal(n)) == n
    decreases n
  {
    if n >= 10 {
      var s := Decimal(n);
      assert s[..|s| - 1] == Decimal(n / 10);
      DecimalValue(n / 10);
    }
  }

  /** Length of the run of digits at the start of `s`. */
  function DigitRun(s: string): (n: nat)
    ensures n <= |s|
    ensures AllDigits(s[..n])
    ensures n < |s| ==> !IsDigit(s[n])
  {
    if s == [] || !IsDigit(s[0]) then 0
    else
      var n := 1 + DigitRun(s[1..]);
      assert s[..n] == [s[0]] + s[1..][..n - 1];
      n
  }

  lemma {:induction false} DigitRunOfDigits(d: string, rest: string)
    requires AllDigits(d)
    requires rest == [] || !IsDigit(rest[0])
    ensures DigitRun(d + rest) == |d|
  {
    if d != [] {
      assert (d + rest)[1..] == d[1..] + rest;
      DigitRunOfDigits(d[1..], rest);
    } else {
      assert d + rest == rest;
    }
  }

  /** The number at the start of `s` and what follows it, if `s` starts with a digit. */
  function ReadNumber(s: string): Option<(nat, string)>
  {
    var n := DigitRun(s);
    if n == 0 then None else Some((DigitsValue(s[..n]), s[n..]))
  }

  /** A run of digits followed by a non-digit (or nothing) reads as its value. */
  lemma ReadDigits(d: string, rest: string)
    requires d != [] && AllDigits(d)
    requires rest == [] || !IsDigit(rest[0])
    ensures ReadNumber(d + rest) == Some((DigitsValue(d), rest))
  {
    DigitRunOfDigits(d, rest);
    assert (d + rest)[..|d|] == d;
    assert (d + rest)[|d|..] == rest;
  }

  /** Python's `format_timedelta` on a non-negative whole number of seconds. */
  function FormatTimedelta(seconds: nat): string
  {
    FormatParts(seconds / 3600, seconds % 3600 / 60, seconds % 3600 % 60)
  }

  /** The f-string `format_timedelta` picks for `h` hours, `m` minutes and `s` seconds. */
  function FormatParts(h: nat, m: nat, s: nat): string
  {
    if h > 0 then Decimal(h) + ("h " + (Decimal(m) + ("m " + (Decimal(s) + "s"))))
    else if m > 0 then Decimal(m) + ("m " + (Decimal(s) + "s"))
    else Decimal(s) + "s"
  }

  /** Reads "Hh Mm Ss", "Mm Ss" or "Ss" back into seconds. */
  function ParseTimedelta(text: string): Option<nat>
  {
    match ReadNumber(text)
    case None => None
    case Some((a, r1)) =>
      if r1 == "s" then Some(a)
      else if |r1| < 2 then None
      else if r1[..2] == "m " then
        match ReadNumber(r1[2..])
        case None => None
        case Some((b, r2)) => if r2 == "s" then Some(a * 60 + b) else None
      else if r1[..2] == "h " then
        match ReadNumber(r1[2..])
        case None => None
        case Some((b, r2)) =>
          if |r2| < 2 || r2[..2] != "m " then None
          else
            match ReadNumber(r2[2..])
            case None => None
            case Some((c, r3)) => if r3 == "s" then Some(a * 3600 + b * 60 + c) else None
      else None
  }

  /** How ParseTimedelta reads a text of the form "Ss", given its number. */
  lemma ParseSecondsForm(text: string, s: nat)
    requires ReadNumber(text) == Some((s, "s"))
    ensures ParseTimedelta(text) == Some(s)
  {
  }

  /** How ParseTimedelta reads a text of the form "Mm Ss", given its two numbers. */
  lemma ParseMinutesForm(text: string, m: nat, s: nat, r1: string)
    requires ReadNumber(text) == Some((m, r1))
    requires |r1| >= 2 && r1[..2] == "m " && ReadNumber(r1[2..]) == Some((s, "s"))
    ensures ParseTimedelta(text) == Some(m * 60 + s)
  {
    assert r1 != "s";
  }

  /** How ParseTimedelta reads a text of the form "Hh Mm Ss", given its three numbers. */
  lemma ParseHoursForm(text: string, h: nat, m: nat, s: nat, r1: string, r2: string)
    requires ReadNumber(text) == Some((h, r1))
    requires |r1| >= 2 && r1[..2] == "h " && ReadNumber(r1[2..]) == Some((m, r2))
    requires |r2| >= 2 && r2[..2] == "m " && ReadNumber(r2[2..]) == Some((s, "s"))
    ensures ParseTimedelta(text) == Some(h * 3600 + m * 60 + s)
  {
    assert r1 != "s";
  }

  /** A number followed by a two-character unit such as "h " reads as its value, leaving the unit and the rest. */
  lemma ReadUnit(d: string, unit: string, rest: string)
    requires d != [] && AllDigits(d)
    requires |unit| == 2 && !IsDigit(unit[0])
    ensures ReadNumber(d + (unit + rest)) == Some((DigitsValue(d), unit + rest))
    ensures |unit + rest| >= 2 && (unit + rest)[..2] == unit && (unit + rest)[2..] == rest
  {
    ReadDigits(d, unit + rest);
    assert (unit + rest)[..2] == unit;
    assert (unit + rest)[2..] == rest;
  }

  /** `seconds` is its hours, minutes and seconds put back together. */
  lemma Split(seconds: nat)
    ensures seconds == seconds / 3600 * 3600 + seconds % 3600 / 60 * 60 + seconds % 3600 % 60
  {
    var r := seconds % 3600;
    assert seconds == seconds / 3600 * 3600 + r;
    assert r == r / 60 * 60 + r % 60;
  }

  /** "Mm Ss" reads as its minutes, then "m ", then its seconds, then "s". */
  lemma ReadMinutesText(dm: string, ds: string)
    requires dm != [] && AllDigits(dm) && ds != [] && AllDigits(ds)
    ensures var r1 := "m " + (ds + "s");
      && ReadNumber(dm + r1) == Some((DigitsValue(dm), r1))
      && |r1| >= 2 && r1[..2] == "m " && ReadNumber(r1[2..]) == Some((DigitsValue(ds), "s"))
  {
    ReadDigits(ds, "s");
    ReadUnit(dm, "m ", ds + "s");
  }

  /** "Hh Mm Ss" reads as its hours, then "h ", then an "Mm Ss" text. */
  lemma ReadHoursText(dh: string, dm: string, ds: string)
    requires dh != [] && AllDigits(dh) && dm != [] && AllDigits(dm) && ds != [] && AllDigits(ds)
    ensures var r2 := "m " + (ds + "s");
      var r1 := "h " + (dm + r2);
      && ReadNumber(dh + r1) == Some((DigitsValue(dh), r1))
      && |r1| >= 2 && r1[..2] == "h " && ReadNumber(r1[2..]) == Some((DigitsValue(dm), r2))
      && |r2| >= 2 && r2[..2] == "m " && ReadNumber(r2[2..]) == Some((DigitsValue(ds), "s"))
  {
    ReadMinutesText(dm, ds);
    ReadUnit(dh, "h ", dm + ("m " + (ds + "s")));
  }

  /** The "Ss" text reads back as its seconds. */
  lemma SecondsRoundTrip(s: nat)
    ensures ParseTimedelta(FormatParts(0, 0, s)) == Some(s)
  {
    DecimalValue(s);
    ReadDigits(Decimal(s), "s");
    ParseSecondsForm(Decimal(s) + "s", s);
  }

  /** The "Mm Ss" text reads back as its minutes and seconds. */
  lemma MinutesRoundTrip(m: nat, s: nat)
    requires m > 0
    ensures ParseTimedelta(FormatParts(0, m, s)) == Some(m * 60 + s)
  {
    DecimalValue(m);
    DecimalValue(s);
    ReadMinutesText(Decimal(m), Decimal(s));
    ParseMinutesForm(FormatParts(0, m, s), m, s, "m " + (Decimal(s) + "s"));
  }

  /** The "Hh Mm Ss" text reads back as its hours, minutes and seconds. */
  lemma HoursRoundTrip(h: nat, m: nat, s: nat)
    requires h > 0
    ensures ParseTimedelta(FormatParts(h, m, s)) == Some(h * 3600 + m * 60 + s)
  {
    DecimalValue(h);
    DecimalValue(m);
    DecimalValue(s);
    ReadHoursText(Decimal(h), Decimal(m), Decimal(s));
    ParseHoursForm(FormatParts(h, m, s), h, m, s,
                   "h " + (Decimal(m) + ("m " + (Decimal(s) + "s"))), "m " + (Decimal(s) + "s"));
  }

  /** The formatted text stands for exactly the number of seconds it was made from. */
  lemma FormatTimedeltaRoundTrip(seconds: nat)
    ensures ParseTimedelta(FormatTimedelta(seconds)) == Some(seconds)
  {
    var h, m, s := seconds / 3600, seconds % 3600 / 60, seconds % 3600 % 60;
    Split(seconds);
    if h > 0 {
      HoursRoundTrip(h, m, s);
    } else if m > 0 {
      MinutesRoundTrip(m, s);
    } else {
      SecondsRoundTrip(s);
    }
  }

  lemma NoUnitLetters(d: string)
    requires AllDigits(d)
    ensures 'h' !in d && 'm' !in d
  {
    assert !IsDigit('h') && !IsDigit('m');
  }

  lemma HoursTextUnits(dh: string, dm: string, ds: string)
    requires |dh| >= 1 && dh[0] != '0'
    ensures var text := dh + ("h " + (dm + ("m " + (ds + "s"))));
      'h' in text && 'm' in text && text[0] != '0'
  {
    var text := dh + ("h " + (dm + ("m " + (ds + "s"))));
    assert text[|dh|] == 'h';
    assert text[|dh| + 2 + |dm|] == 'm';
  }

  lemma MinutesTextUnits(dm: string, ds: string)
    requires |dm| >= 1 && dm[0] != '0' && AllDigits(dm) && AllDigits(ds)
    ensures var text := dm + ("m " + (ds + "s"));
      'h' !in text && 'm' in text && text[0] != '0'
  {
    var text := dm + ("m " + (ds + "s"));
    NoUnitLetters(dm);
    NoUnitLetters(ds);
    assert text[|dm|] == 'm';
  }

  lemma SecondsTextUnits(ds: string)
    requires |ds| >= 1 && AllDigits(ds)
    ensures var text := ds + "s";
      'h' !in text && 'm' !in text && text[0] == ds[0]
  {
    NoUnitLetters(ds);
  }

  /**
   * Exactly the leading zero units are dropped: an hours part is shown iff the
   * duration is at least an hour, a minutes part iff it is at least a minute, and
   * the text starts with the digit 0 only for a zero duration.
   */
  lemma FormatTimedeltaUnits(seconds: nat)
    ensures 'h' in FormatTimedelta(seconds) <==> seconds >= 3600
    ensures 'm' in FormatTimedelta(seconds) <==> seconds >= 60
    ensures FormatTimedelta(seconds)[0] == '0' <==> seconds == 0
  {
    var h := seconds / 3600;
    var m := seconds % 3600 / 60;
    var s := seconds % 3600 % 60;
    if h > 0 {
      HoursTextUnits(Decimal(h), Decimal(m), Decimal(s));
    } else if m > 0 {
      MinutesTextUnits(Decimal(m), Decimal(s));
    } else {
      SecondsTextUnits(Decimal(s));
      assert seconds == s;
    }
  }
}
