/**
 * `formatSeconds`, the m:ss rendering of the seconds a vehicle is away, and a
 * reader for that rendering that shows nothing is lost.
 */
module Clock {
  import opened Wrappers
  import opened Text

  /**
   * `formatSeconds(seconds)`: the whole minutes in decimal, a colon, and the
   * seconds left over, padded to two digits with a leading zero.
   */
  function FormatSeconds(seconds: nat): (r: string)
    ensures |r| >= 4 && r[|r| - 3] == ':'
    ensures AllDigits(r[..|r| - 3]) && AllDigits(r[|r| - 2..])
    ensures |r| > 4 ==> r[0] != '0'
    ensures seconds < 600 <==> |r| == 4
  {
    var secs := Decimal(seconds % 60);
    Decimal(seconds / 60) + [':'] + PadStart(secs, 2, '0')
  }

  /**
   * Reads "m:ss" back: minutes in decimal, a colon, two digits showing less
   * than 60. Anything else is `None`.
   */
  function ParseClock(r: string): (t: Option<nat>)
    ensures t.Some? ==> |r| >= 4 && r[|r| - 3] == ':'
  {
    if |r| >= 4 && r[|r| - 3] == ':' && AllDigits(r[..|r| - 3])
       && IsDigit(r[|r| - 2]) && r[|r| - 2] <= '5' && IsDigit(r[|r| - 1])
    then Some(60 * ValueOfPrefix(r, |r| - 3) + 10 * DigitValue(r[|r| - 2]) + DigitValue(r[|r| - 1]))
    else None
  }

  /** The seconds field is two digits that spell out `rest`. */
  lemma SecondsField(rest: nat)
    requires rest < 60
    ensures var f := PadStart(Decimal(rest), 2, '0');
            |f| == 2 && IsDigit(f[0]) && f[0] <= '5' && IsDigit(f[1])
            && 10 * DigitValue(f[0]) + DigitValue(f[1]) == rest
  {
    var d := Decimal(rest);
    if rest < 10 {
      assert PadStart(d, 2, '0') == ['0', DigitChar(rest)];
    } else {
      assert d == Decimal(rest / 10) + [DigitChar(rest % 10)];
      assert PadStart(d, 2, '0') == [DigitChar(rest / 10), DigitChar(rest % 10)];
    }
  }

  /** A minutes field, a colon and a valid seconds field read back as minutes times 60 plus seconds. */
  lemma ParseJoined(m: string, f: string, minutes: nat, secs: nat)
    requires |m| >= 1 && AllDigits(m) && ParseDecimal(m) == minutes
    requires |f| == 2 && IsDigit(f[0]) && f[0] <= '5' && IsDigit(f[1])
    requires 10 * DigitValue(f[0]) + DigitValue(f[1]) == secs
    ensures ParseClock(m + [':'] + f) == Some(60 * minutes + secs)
  {
    var r := m + [':'] + f;
    assert r[..|r| - 3] == m;
    assert r[|r| - 2] == f[0] && r[|r| - 1] == f[1];
    ValueOfPrefixLocal(r, m, |m|);
  }

  /** Minutes `q` and seconds `rest` below 60, rendered as `formatSeconds` does, read back as `60 * q + rest`. */
  lemma ParseRendered(q: nat, rest: nat)
    requires rest < 60
    ensures ParseClock(Decimal(q) + [':'] + PadStart(Decimal(rest), 2, '0')) == Some(60 * q + rest)
  {
    SecondsField(rest);
    ParseDecimalOfDecimal(q);
    ParseJoined(Decimal(q), PadStart(Decimal(rest), 2, '0'), q, rest);
  }

  /** Round trip: the minutes and the two-digit seconds give back the count. */
  lemma ParseFormatSeconds(seconds: nat)
    ensures ParseClock(FormatSeconds(seconds)) == Some(seconds)
  {
    var q, rest := seconds / 60, seconds % 60;
    assert FormatSeconds(seconds) == Decimal(q) + [':'] + PadStart(Decimal(rest), 2, '0');
    ParseRendered(q, rest);
  }

  /** Distinct counts render differently. */
  lemma FormatSecondsInjective(a: nat, b: nat)
    requires FormatSeconds(a) == FormatSeconds(b)
    ensures a == b
  {
    ParseFormatSeconds(a);
    ParseFormatSeconds(b);
  }
}
